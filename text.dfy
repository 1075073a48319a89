/** Character-sequence helpers with the meaning of the Go `strings` and `strconv`
    functions the crawler calls (Replace with a one-character pattern, Trim with a
    one-character cutset, Index, Split, Join, Itoa). */
module Text {

  /** `strings.Replace(s, c, "", -1)` applied for every character `c` of `cs`. */
  function Strip(s: string, cs: set<char>): (r: string)
    ensures |r| <= |s|
  {
    if s == [] then [] else (if s[0] in cs then [] else [s[0]]) + Strip(s[1..], cs)
  }

  /** What is left after deleting `cs` comes from `s` and avoids `cs`. */
  lemma {:induction false} StripMembers(s: string, cs: set<char>)
    ensures forall x :: x in Strip(s, cs) ==> x in s && x !in cs
  {
    if s != [] {
      StripMembers(s[1..], cs);
    }
  }

  /** `strings.Replace(s, c, d, -1)` for one-character `c` and `d`. */
  function Subst(s: string, c: char, d: char): (r: string)
    ensures |r| == |s|
  {
    if s == [] then [] else [if s[0] == c then d else s[0]] + Subst(s[1..], c, d)
  }

  /** Each character `c` is replaced in place by `d`, and every other character kept. */
  lemma {:induction false} SubstAt(s: string, c: char, d: char)
    ensures forall i :: 0 <= i < |s| ==> Subst(s, c, d)[i] == (if s[i] == c then d else s[i])
  {
    if s != [] {
      SubstAt(s[1..], c, d);
    }
  }

  lemma SubstMembers(s: string, c: char, d: char)
    ensures forall x :: x in Subst(s, c, d) ==> x == d || (x in s && x != c)
  {
    var r := Subst(s, c, d);
    SubstAt(s, c, d);
    forall x | x in r ensures x == d || (x in s && x != c) {
      var i :| 0 <= i < |r| && r[i] == x;
    }
  }

  /** `strings.TrimLeft(s, c)`: the leading run of `c` removed. */
  function TrimLeft(s: string, c: char): (r: string)
    ensures |r| <= |s| && r == s[|s| - |r|..]
    ensures r == [] || r[0] != c
  {
    if s != [] && s[0] == c then TrimLeft(s[1..], c) else s
  }

  /** What TrimLeft removes is all `c`. */
  lemma {:induction false} TrimLeftDrops(s: string, c: char)
    ensures forall i :: 0 <= i < |s| - |TrimLeft(s, c)| ==> s[i] == c
  {
    if s != [] && s[0] == c {
      TrimLeftDrops(s[1..], c);
      assert forall i :: 1 <= i < |s| ==> s[i] == s[1..][i - 1];
    }
  }

  /** `strings.TrimRight(s, c)`: the trailing run of `c` removed. */
  function TrimRight(s: string, c: char): (r: string)
    ensures |r| <= |s| && r == s[..|r|]
    ensures r == [] || r[|r| - 1] != c
  {
    if s != [] && s[|s| - 1] == c then TrimRight(s[..|s| - 1], c) else s
  }

  /** What TrimRight removes is all `c`. */
  lemma {:induction false} TrimRightDrops(s: string, c: char)
    ensures forall i :: |TrimRight(s, c)| <= i < |s| ==> s[i] == c
  {
    if s != [] && s[|s| - 1] == c {
      TrimRightDrops(s[..|s| - 1], c);
    }
  }

  /** `strings.Trim(s, c)`: what is left between the leading and the trailing run of `c`. */
  function Trim(s: string, c: char): (r: string)
    ensures |r| <= |s|
    ensures r == [] || (r[0] != c && r[|r| - 1] != c)
  {
    var l := TrimLeft(s, c);
    var r := TrimRight(l, c);
    assert r == [] || r[0] == l[0];
    r
  }

  lemma TrimMembers(s: string, c: char)
    ensures forall x :: x in Trim(s, c) ==> x in s
  {
    var l := TrimLeft(s, c);
    var r := TrimRight(l, c);
    var lo := |s| - |l|;
    assert Trim(s, c) == r == s[lo..lo + |r|];
    SliceMembers(s, lo, lo + |r|);
  }

  lemma SliceMembers(s: string, lo: int, hi: int)
    requires 0 <= lo <= hi <= |s|
    ensures forall x :: x in s[lo..hi] ==> x in s
  {
    forall x | x in s[lo..hi] ensures x in s {
      var i :| 0 <= i < hi - lo && s[lo..hi][i] == x;
      assert s[lo + i] == x;
    }
  }

  lemma {:induction false} StripAppend(a: string, b: string, cs: set<char>)
    ensures Strip(a + b, cs) == Strip(a, cs) + Strip(b, cs)
  {
    if a == [] {
      assert a + b == b;
    } else {
      assert (a + b)[0] == a[0];
      assert (a + b)[1..] == a[1..] + b;
      StripAppend(a[1..], b, cs);
      var h := if a[0] in cs then [] else [a[0]];
      calc {
        Strip(a + b, cs);
        h + Strip(a[1..] + b, cs);
        h + (Strip(a[1..], cs) + Strip(b, cs));
        (h + Strip(a[1..], cs)) + Strip(b, cs);
      }
    }
  }

  lemma {:induction false} StripAll(s: string, cs: set<char>)
    requires forall k :: 0 <= k < |s| ==> s[k] in cs
    ensures Strip(s, cs) == []
  {
    if s != [] {
      StripAll(s[1..], cs);
    }
  }

  lemma {:induction false} StripNothing(s: string, cs: set<char>)
    requires forall x :: x in s ==> x !in cs
    ensures Strip(s, cs) == s
  {
    if s != [] {
      StripNothing(s[1..], cs);
    }
  }

  /** Deleting the only occurrence of `c` from between two parts. */
  lemma DropOne(a: string, c: char, b: string)
    requires c !in a && c !in b
    ensures Strip(a + [c] + b, {c}) == a + b
  {
    assert Strip([c], {c}) == [] by {
      assert [c][1..] == [];
    }
    calc {
      Strip(a + [c] + b, {c});
      { StripAppend(a + [c], b, {c}); }
      Strip(a + [c], {c}) + Strip(b, {c});
      { StripAppend(a, [c], {c}); }
      Strip(a, {c}) + Strip([c], {c}) + Strip(b, {c});
      Strip(a, {c}) + Strip(b, {c});
      { StripNothing(a, {c}); StripNothing(b, {c}); }
      a + b;
    }
  }

  /** Deleting one set of characters and then another deletes their union. */
  lemma {:induction false} StripStrip(s: string, a: set<char>, b: set<char>)
    ensures Strip(Strip(s, a), b) == Strip(s, a + b)
  {
    if s != [] {
      StripStrip(s[1..], a, b);
      var h := if s[0] in a then [] else [s[0]];
      StripAppend(h, Strip(s[1..], a), b);
    }
  }

  /** Turning `c` into a character that is deleted afterwards deletes `c` too. */
  lemma {:induction false} StripSubst(s: string, c: char, d: char, cs: set<char>)
    requires d in cs
    ensures Strip(Subst(s, c, d), cs) == Strip(s, cs + {c})
  {
    if s != [] {
      StripSubst(s[1..], c, d, cs);
      var h := [if s[0] == c then d else s[0]];
      assert Subst(s, c, d) == h + Subst(s[1..], c, d);
      StripAppend(h, Subst(s[1..], c, d), cs);
    }
  }

  lemma TrimLeftStrip(s: string, c: char, cs: set<char>)
    requires c in cs
    ensures Strip(TrimLeft(s, c), cs) == Strip(s, cs)
  {
    var l := TrimLeft(s, c);
    var pre := s[..|s| - |l|];
    assert forall k :: 0 <= k < |pre| ==> pre[k] in cs by {
      TrimLeftDrops(s, c);
    }
    calc {
      Strip(s, cs);
      { assert s == pre + l; }
      Strip(pre + l, cs);
      { StripAppend(pre, l, cs); }
      Strip(pre, cs) + Strip(l, cs);
      { StripAll(pre, cs); }
      Strip(l, cs);
    }
  }

  lemma TrimRightStrip(s: string, c: char, cs: set<char>)
    requires c in cs
    ensures Strip(TrimRight(s, c), cs) == Strip(s, cs)
  {
    var r := TrimRight(s, c);
    var post := s[|r|..];
    assert forall k :: 0 <= k < |post| ==> post[k] in cs by {
      TrimRightDrops(s, c);
    }
    calc {
      Strip(s, cs);
      { assert s == r + post; }
      Strip(r + post, cs);
      { StripAppend(r, post, cs); }
      Strip(r, cs) + Strip(post, cs);
      { StripAll(post, cs); }
      Strip(r, cs);
    }
  }

  /** Trimming `c` removes nothing that deleting `c` would keep. */
  lemma TrimStrip(s: string, c: char, cs: set<char>)
    requires c in cs
    ensures Strip(Trim(s, c), cs) == Strip(s, cs)
  {
    TrimLeftStrip(s, c, cs);
    TrimRightStrip(TrimLeft(s, c), c, cs);
  }

  lemma SubstNothing(s: string, c: char, d: char)
    requires forall k :: 0 <= k < |s| ==> s[k] != c
    ensures Subst(s, c, d) == s
  {
    SubstAt(s, c, d);
  }

  /** Trimming keeps a text that neither starts nor ends with `c`. */
  lemma TrimUntouched(s: string, c: char)
    requires s == [] || (s[0] != c && s[|s| - 1] != c)
    ensures Trim(s, c) == s
  {
  }

  lemma TrimNothing(s: string, c: char)
    requires c !in s
    ensures Trim(s, c) == s
  {
  }

  /** `t` occurs in `s` starting at index `i`. */
  predicate OccursAt(s: string, t: string, i: int)
  {
    0 <= i && i + |t| <= |s| && s[i..i + |t|] == t
  }

  predicate Contains(s: string, t: string)
  {
    exists i :: 0 <= i <= |s| && OccursAt(s, t, i)
  }

  /** `strings.Index(s, t)`: the first index where `t` occurs in `s`, or -1
      (`IndexOfFirst` shows that it is the first). */
  function IndexOf(s: string, t: string): (i: int)
    ensures -1 <= i <= |s|
    ensures i >= 0 ==> i + |t| <= |s|
    decreases |s|
  {
    if |s| < |t| then -1
    else if s[..|t|] == t then 0
    else
      var k := IndexOf(s[1..], t);
      if k < 0 then -1 else k + 1
  }

  /** IndexOf finds the first occurrence, and finds none exactly when there is none. */
  lemma {:induction false} IndexOfFirst(s: string, t: string)
    ensures var i := IndexOf(s, t);
            && (i >= 0 ==> OccursAt(s, t, i))
            && (i >= 0 ==> forall j :: 0 <= j < i ==> !OccursAt(s, t, j))
            && (i < 0 <==> !Contains(s, t))
    decreases |s|
  {
    IndexOfOccurs(s, t);
    if |s| < |t| {
      forall j | 0 <= j <= |s| ensures !OccursAt(s, t, j) {
      }
    } else if s[..|t|] == t {
      assert OccursAt(s, t, 0);
    } else {
      var k := IndexOf(s[1..], t);
      IndexOfFirst(s[1..], t);
      assert IndexOf(s, t) == if k < 0 then -1 else k + 1;
      assert !OccursAt(s, t, 0);
      forall j | 1 <= j ensures OccursAt(s, t, j) <==> OccursAt(s[1..], t, j - 1) {
        if j + |t| <= |s| {
          var u, v := s[j..j + |t|], s[1..][j - 1..j - 1 + |t|];
          assert forall m :: 0 <= m < |t| ==> u[m] == v[m];
        }
      }
      if k < 0 {
        forall j | 0 <= j <= |s| ensures !OccursAt(s, t, j) {
          if j >= 1 {
            assert !OccursAt(s[1..], t, j - 1);
          }
        }
      }
    }
  }

  /** What IndexOf finds is an occurrence. */
  lemma {:induction false} IndexOfOccurs(s: string, t: string)
    ensures var i := IndexOf(s, t);
            i >= 0 ==> OccursAt(s, t, i)
    decreases |s|
  {
    if |s| >= |t| && s[..|t|] != t {
      var k := IndexOf(s[1..], t);
      IndexOfOccurs(s[1..], t);
      if k >= 0 {
        assert s[1..][k..k + |t|] == s[k + 1..k + 1 + |t|];
      }
    }
  }

  /** An occurrence with none before it is what IndexOf finds. */
  lemma IndexOfIs(s: string, t: string, i: int)
    requires OccursAt(s, t, i)
    requires forall j :: 0 <= j < i ==> !OccursAt(s, t, j)
    ensures IndexOf(s, t) == i
  {
    IndexOfFirst(s, t);
    assert Contains(s, t);
  }

  /** `strings.Split(s, sep)` for a non-empty `sep`. */
  function Split(s: string, sep: string): (parts: seq<string>)
    requires sep != []
    ensures |parts| >= 1
    decreases |s|
  {
    var i := IndexOf(s, sep);
    if i < 0 then [s] else [s[..i]] + Split(s[i + |sep|..], sep)
  }

  /** The first part of a split is what precedes the first separator, and the second
      part is the first part of what follows it. */
  lemma SplitFirst(s: string, sep: string)
    requires sep != []
    ensures var i := IndexOf(s, sep);
            && (i < 0 ==> |Split(s, sep)| == 1 && Split(s, sep)[0] == s)
            && (i >= 0 ==> |Split(s, sep)| > 1 && Split(s, sep)[0] == s[..i]
                           && Split(s, sep)[1] == Split(s[i + |sep|..], sep)[0])
  {
    SplitUnfold(s, sep);
  }

  /** One step of Split. */
  lemma SplitUnfold(s: string, sep: string)
    requires sep != []
    ensures var i := IndexOf(s, sep);
            Split(s, sep) == if i < 0 then [s] else [s[..i]] + Split(s[i + |sep|..], sep)
  {
    var i := IndexOf(s, sep);
    var parts := Split(s, sep);
    if i < 0 {
      assert parts == [s];
    } else {
      var rest := s[i + |sep|..];
      assert parts == [s[..i]] + Split(rest, sep);
    }
  }

  /** No part of a split contains the separator. */
  lemma {:induction false} SplitPartsFree(s: string, sep: string)
    requires sep != []
    ensures forall k :: 0 <= k < |Split(s, sep)| ==> !Contains(Split(s, sep)[k], sep)
    decreases |s|
  {
    var i := IndexOf(s, sep);
    IndexOfFirst(s, sep);
    if i >= 0 {
      forall j | OccursAt(s[..i], sep, j) ensures OccursAt(s, sep, j) {
        assert s[..i][j..j + |sep|] == s[j..j + |sep|];
      }
      SplitPartsFree(s[i + |sep|..], sep);
    }
  }

  /** `strings.Join(parts, sep)`. */
  function Join(parts: seq<string>, sep: string): string
  {
    if |parts| == 0 then ""
    else if |parts| == 1 then parts[0]
    else parts[0] + sep + Join(parts[1..], sep)
  }

  /** `strings.Replace(s, pat, "", -1)`: every occurrence of `pat`, taken from left to
      right without overlap, deleted. */
  function RemoveAll(s: string, pat: string): (r: string)
    requires pat != []
  {
    Join(Split(s, pat), "")
  }

  /** Split has more than one part exactly when the separator occurs. */
  lemma SplitMany(s: string, sep: string)
    requires sep != []
    ensures |Split(s, sep)| > 1 <==> Contains(s, sep)
  {
    IndexOfFirst(s, sep);
  }

  lemma JoinCons(head: string, parts: seq<string>, sep: string)
    requires parts != []
    ensures Join([head] + parts, sep) == head + sep + Join(parts, sep)
  {
    assert ([head] + parts)[1..] == parts;
  }

  /** A text is what precedes an occurrence, the occurrence, and what follows it. */
  lemma AroundOccurrence(s: string, t: string, i: int)
    requires OccursAt(s, t, i)
    ensures s == s[..i] + t + s[i + |t|..]
  {
    assert s == s[..i] + s[i..i + |t|] + s[i + |t|..];
  }

  /** Splitting and joining again gives back the original text. */
  lemma {:induction false} JoinSplit(s: string, sep: string)
    requires sep != []
    ensures Join(Split(s, sep), sep) == s
    decreases |s|
  {
    var i := IndexOf(s, sep);
    IndexOfFirst(s, sep);
    if i >= 0 {
      var rest := s[i + |sep|..];
      var tail := Split(rest, sep);
      assert Split(s, sep) == [s[..i]] + tail;
      JoinSplit(rest, sep);
      JoinCons(s[..i], tail, sep);
      AroundOccurrence(s, sep, i);
    } else {
      assert Split(s, sep) == [s];
    }
  }

  /** The decimal digits of a natural number, most significant first. */
  function NatToDecimal(n: nat): (r: string)
    decreases n
  {
    var d := ('0' as int + n % 10) as char;
    if n < 10 then [d] else NatToDecimal(n / 10) + [d]
  }

  /** `strconv.Itoa(n)`. */
  function Itoa(n: int): string
  {
    if n < 0 then "-" + NatToDecimal(-n) else NatToDecimal(n)
  }

  /** The value of a string of decimal digits, most significant first. */
  function DecimalValue(s: string): int
  {
    if s == [] then 0 else 10 * DecimalValue(s[..|s| - 1]) + (s[|s| - 1] as int - '0' as int)
  }

  /** Reads an optional '-' and decimal digits, as `strconv.Atoi` does for what
      `strconv.Itoa` writes. */
  function ParseInt(s: string): int
  {
    if |s| > 0 && s[0] == '-' then -DecimalValue(s[1..]) else DecimalValue(s)
  }

  lemma {:induction false} NatToDecimalDigits(n: nat)
    ensures |NatToDecimal(n)| >= 1
    ensures forall k :: 0 <= k < |NatToDecimal(n)| ==> '0' <= NatToDecimal(n)[k] <= '9'
    decreases n
  {
    if n >= 10 {
      NatToDecimalDigits(n / 10);
    }
  }

  lemma {:induction false} NatToDecimalRoundTrip(n: nat)
    ensures DecimalValue(NatToDecimal(n)) == n
    decreases n
  {
    var r := NatToDecimal(n);
    var d := ('0' as int + n % 10) as char;
    if n >= 10 {
      NatToDecimalRoundTrip(n / 10);
      assert r[..|r| - 1] == NatToDecimal(n / 10);
      assert r[|r| - 1] == d;
    } else {
      assert r[..|r| - 1] == [];
    }
  }

  /** `strconv.Itoa` is undone by reading the number back. */
  lemma ItoaRoundTrip(n: int)
    ensures ParseInt(Itoa(n)) == n
  {
    if n < 0 {
      NatToDecimalRoundTrip(-n);
      assert ("-" + NatToDecimal(-n))[1..] == NatToDecimal(-n);
    } else {
      NatToDecimalRoundTrip(n);
      NatToDecimalDigits(n);
    }
  }

  /** Different numbers are written differently. */
  lemma ItoaDiffer(a: int, b: int)
    requires a != b
    ensures Itoa(a) != Itoa(b)
  {
    ItoaRoundTrip(a);
    ItoaRoundTrip(b);
  }

  /** The same text followed by different texts gives different texts. */
  lemma AfterPrefixDiffer(p: string, x: string, y: string)
    requires x != y
    ensures p + x != p + y
  {
    assert (p + x)[|p|..] == x;
    assert (p + y)[|p|..] == y;
  }
}
