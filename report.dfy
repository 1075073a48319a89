/** The phone column of the CSV report: each phone written as a token, an "M" for
    the main number, a "W" for a WhatsApp number, then the number in parentheses,
    and the tokens separated by " | ". */
module ReportWriter {
  import opened Wrappers
  import opened Text
  import opened Publication

  const Separator := " | "

  /** The token of one phone. */
  function Token(p: Phone): (t: string)
    ensures |t| >= 4 && t[|t| - 1] == ')'
  {
    (if p.isMain then "M" else "") + (if p.haveWhatsapp then "W" else "") + "( " + p.number + " )"
  }

  function Tokens(phones: seq<Phone>): (ts: seq<string>)
    ensures |ts| == |phones|
  {
    if phones == [] then [] else Tokens(phones[..|phones| - 1]) + [Token(phones[|phones| - 1])]
  }

  /** `phoneListToString`. */
  method PhoneListToString(phones: seq<Phone>) returns (out: string)
    ensures out == Join(Tokens(phones), Separator)
    ensures phones == [] <==> out == ""
  {
    out := "";
    for i := 0 to |phones|
      invariant out == Written(phones, i)
    {
      var phone := phones[i];
      ghost var before := out;
      if phone.isMain {
        out := out + "M";
      }
      ghost var main := out;
      if phone.haveWhatsapp {
        out := out + "W";
      }
      ghost var flags := out;
      out := out + "( " + phone.number + " )";
      ghost var token := out;
      if i != |phones| - 1 {
        out := out + " | ";
      }
      LoopStep(phones, i, before, main, flags, token, out);
    }
    assert phones[..|phones|] == phones;
    ReportEmpty(phones);
  }

  /** One turn of the loop takes what is written after `i` phones to what is written
      after `i + 1`. */
  lemma LoopStep(phones: seq<Phone>, i: nat, before: string, main: string, flags: string, token: string, after: string)
    requires i < |phones|
    requires before == Written(phones, i)
    requires main == before + (if phones[i].isMain then "M" else "")
    requires flags == main + (if phones[i].haveWhatsapp then "W" else "")
    requires token == flags + "( " + phones[i].number + " )"
    requires after == token + (if i != |phones| - 1 then " | " else "")
    ensures after == Written(phones, i + 1)
  {
    TokenAppended(before, main, flags, token, phones[i]);
    WrittenStep(phones, i);
  }

  /** The text the loop body appends for one phone is the phone's token. */
  lemma TokenAppended(before: string, main: string, flags: string, after: string, p: Phone)
    requires main == before + (if p.isMain then "M" else "")
    requires flags == main + (if p.haveWhatsapp then "W" else "")
    requires after == flags + "( " + p.number + " )"
    ensures after == before + Token(p)
  {
    var m := if p.isMain then "M" else "";
    var w := if p.haveWhatsapp then "W" else "";
    calc {
      after;
      before + m + w + "( " + p.number + " )";
      { Assoc(before, m, w); }
      before + (m + w) + "( " + p.number + " )";
      { Assoc(before, m + w, "( "); }
      before + (m + w + "( ") + p.number + " )";
      { Assoc(before, m + w + "( ", p.number); }
      before + (m + w + "( " + p.number) + " )";
      { Assoc(before, m + w + "( " + p.number, " )"); }
      before + (m + w + "( " + p.number + " )");
    }
  }

  lemma Assoc(a: string, b: string, c: string)
    ensures a + b + c == a + (b + c)
  {
  }

  /** The report is empty exactly when there are no phones. */
  lemma ReportEmpty(phones: seq<Phone>)
    ensures Join(Tokens(phones), Separator) == "" <==> phones == []
  {
    if phones != [] {
      var ts := Tokens(phones);
      TokensAt(phones);
      assert |ts[0]| >= 4;
      if |ts| > 1 {
        assert Join(ts, Separator) == ts[0] + Separator + Join(ts[1..], Separator);
      }
    }
  }

  /** What the loop has written after `i` phones: their tokens joined, and a separator
      after them unless they were all. */
  function Written(phones: seq<Phone>, i: nat): string
    requires i <= |phones|
  {
    if i == 0 then ""
    else Join(Tokens(phones[..i]), Separator) + (if i < |phones| then Separator else "")
  }

  lemma WrittenStep(phones: seq<Phone>, i: nat)
    requires i < |phones|
    ensures Written(phones, i + 1)
         == Written(phones, i) + Token(phones[i]) + (if i != |phones| - 1 then Separator else "")
  {
    var front := phones[..i];
    var t := Token(phones[i]);
    var tail := if i + 1 < |phones| then Separator else "";
    assert phones[..i + 1][..i] == front;
    assert phones[..i + 1][i] == phones[i];
    assert Tokens(phones[..i + 1]) == Tokens(front) + [t];
    if i == 0 {
      assert Tokens(front) == [];
      assert Join([t], Separator) == t;
      assert Written(phones, 1) == t + tail;
    } else {
      JoinSnoc(Tokens(front), t, Separator);
      var joined := Join(Tokens(front), Separator);
      assert Written(phones, i) == joined + Separator;
      assert Written(phones, i + 1) == joined + Separator + t + tail;
    }
  }

  /** Joining with one more part appends the separator and the part. */
  lemma {:induction false} JoinSnoc(parts: seq<string>, p: string, sep: string)
    requires parts != []
    ensures Join(parts + [p], sep) == Join(parts, sep) + sep + p
  {
    if |parts| > 1 {
      assert (parts + [p])[1..] == parts[1..] + [p];
      JoinSnoc(parts[1..], p, sep);
    } else {
      assert (parts + [p])[1..] == [p];
    }
  }

  /** The report of a phone list with `n` phones has `n - 1` separators between its
      tokens: it is the first token followed by separator-and-token for the rest. */
  lemma ReportShape(phones: seq<Phone>)
    requires |phones| >= 2
    ensures Join(Tokens(phones), Separator)
         == Join(Tokens(phones[..|phones| - 1]), Separator) + Separator + Token(phones[|phones| - 1])
  {
    JoinSnoc(Tokens(phones[..|phones| - 1]), Token(phones[|phones| - 1]), Separator);
  }

  // ---------------------------------------------------------------------------
  // Reading a report back

  /** What a token shows of a phone: the main flag, the WhatsApp flag and the number. */
  datatype Shown = Shown(isMain: bool, haveWhatsapp: bool, number: string)

  function ShownOf(p: Phone): Shown
  {
    Shown(p.isMain, p.haveWhatsapp, p.number)
  }

  /** Reads a token: an optional "M", an optional "W", then "( ", the number and " )". */
  function ParseToken(t: string): (r: Option<Shown>)
  {
    var main := StartsWithChar(t, 'M');
    var t1 := if main then t[1..] else t;
    var whatsapp := StartsWithChar(t1, 'W');
    var t2 := if whatsapp then t1[1..] else t1;
    match ParseNumber(t2)
    case Some(number) => Some(Shown(main, whatsapp, number))
    case None => None
  }

  predicate StartsWithChar(t: string, c: char)
  {
    |t| > 0 && t[0] == c
  }

  /** Reads "( ", a number and " )". */
  function ParseNumber(t: string): (r: Option<string>)
  {
    if |t| >= 4 && t[..2] == "( " && t[|t| - 2..] == " )" then Some(t[2..|t| - 2]) else None
  }

  lemma ParseNumberRoundTrip(number: string)
    ensures ParseNumber("( " + number + " )") == Some(number)
  {
    var t := "( " + number + " )";
    assert t[..2] == "( ";
    assert t[|t| - 2..] == " )";
    assert t[2..|t| - 2] == number;
  }

  /** A flag letter put in front is read back, and the text after it is left. */
  lemma FlagRoundTrip(flag: bool, c: char, rest: string)
    requires !StartsWithChar(rest, c)
    ensures var t := (if flag then [c] else "") + rest;
            StartsWithChar(t, c) == flag && (if flag then t[1..] else t) == rest
  {
    if flag {
      assert ([c] + rest)[1..] == rest;
    }
  }

  /** A token reads back as the flags and the number it was written from. */
  lemma ParseTokenRoundTrip(p: Phone)
    ensures ParseToken(Token(p)) == Some(ShownOf(p))
  {
    var body := "( " + p.number + " )";
    assert body[0] == '(';
    ParseNumberRoundTrip(p.number);
    FlagRoundTrip(p.haveWhatsapp, 'W', body);
    var t1 := (if p.haveWhatsapp then "W" else "") + body;
    assert t1[0] != 'M';
    FlagRoundTrip(p.isMain, 'M', t1);
    var m, w := if p.isMain then "M" else "", if p.haveWhatsapp then "W" else "";
    calc {
      Token(p);
      m + w + "( " + p.number + " )";
      { Assoc(m + w + "( ", p.number, " )"); }
      m + w + "( " + (p.number + " )");
      { Assoc(m + w, "( ", p.number + " )"); Assoc("( ", p.number, " )"); }
      m + w + body;
      { Assoc(m, w, body); }
      m + t1;
    }
  }

  /** Reads a whole report: the tokens between the separators. */
  function ParseReport(s: string): seq<Option<Shown>>
  {
    var parts := Split(s, Separator);
    ParseParts(parts)
  }

  function ParseParts(parts: seq<string>): (r: seq<Option<Shown>>)
    ensures |r| == |parts|
  {
    if parts == [] then [] else [ParseToken(parts[0])] + ParseParts(parts[1..])
  }

  /** A non-empty report whose numbers contain no '|' reads back as the flags and
      numbers of its phones, in order. */
  lemma ReportRoundTrip(phones: seq<Phone>)
    requires phones != []
    requires forall k :: 0 <= k < |phones| ==> '|' !in phones[k].number
    ensures |ParseReport(Join(Tokens(phones), Separator))| == |phones|
    ensures forall k :: 0 <= k < |phones| ==>
              ParseReport(Join(Tokens(phones), Separator))[k] == Some(ShownOf(phones[k]))
  {
    var ts := Tokens(phones);
    TokensAt(phones);
    forall k | 0 <= k < |ts| ensures '|' !in ts[k] {
      TokenFree(phones[k]);
    }
    SplitTokens(ts);
    ParsedAt(ts);
    forall k | 0 <= k < |phones| ensures ParseToken(ts[k]) == Some(ShownOf(phones[k])) {
      ParseTokenRoundTrip(phones[k]);
    }
  }

  lemma {:induction false} TokensAt(phones: seq<Phone>)
    ensures forall k :: 0 <= k < |phones| ==> Tokens(phones)[k] == Token(phones[k])
  {
    if phones != [] {
      TokensAt(phones[..|phones| - 1]);
    }
  }

  lemma {:induction false} ParsedAt(parts: seq<string>)
    ensures forall k :: 0 <= k < |parts| ==> ParseParts(parts)[k] == ParseToken(parts[k])
  {
    if parts != [] {
      ParsedAt(parts[1..]);
    }
  }

  lemma TokenFree(p: Phone)
    requires '|' !in p.number
    ensures '|' !in Token(p)
  {
  }

  /** Tokens without '|' are found again by splitting at the separator. */
  lemma {:induction false} SplitTokens(ts: seq<string>)
    requires ts != []
    requires forall k :: 0 <= k < |ts| ==> '|' !in ts[k]
    ensures Split(Join(ts, Separator), Separator) == ts
  {
    if |ts| == 1 {
      NoSeparator(ts[0]);
    } else {
      var rest := Join(ts[1..], Separator);
      assert Join(ts, Separator) == ts[0] + Separator + rest;
      FirstSeparator(ts[0], rest);
      assert (ts[0] + Separator + rest)[|ts[0]| + 3..] == rest;
      assert (ts[0] + Separator + rest)[..|ts[0]|] == ts[0];
      SplitTokens(ts[1..]);
    }
  }

  lemma NoSeparator(t: string)
    requires '|' !in t
    ensures Split(t, Separator) == [t]
  {
    forall j | 0 <= j && j + 3 <= |t| ensures !OccursAt(t, Separator, j) {
      assert t[j..j + 3][1] == t[j + 1];
    }
    IndexOfFirst(t, Separator);
  }

  /** In a token without '|' followed by the separator, the separator is first found
      right after the token. */
  lemma FirstSeparator(t: string, rest: string)
    requires '|' !in t
    ensures IndexOf(t + Separator + rest, Separator) == |t|
  {
    var s := t + Separator + rest;
    assert s[|t|..|t| + 3] == Separator;
    assert OccursAt(s, Separator, |t|);
    forall j | 0 <= j < |t| ensures !OccursAt(s, Separator, j) {
      assert s[j..j + 3][1] == s[j + 1];
      if j + 1 < |t| {
        assert s[j + 1] == t[j + 1];
      } else {
        assert s[j + 1] == ' ';
      }
    }
    IndexOfIs(s, Separator, |t|);
  }
}
