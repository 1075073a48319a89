/** The field normalisers of the crawler: phone and category-name cleaning, the
    file-system-safe cache file name, and the Spanish day label lookup. */
module FieldNormalizer {
  import opened Text
  import opened Publication

  /** Every character `cleanField` drops or turns into an inner space. */
  const Noise: set<char> := {' ', '-', '.', '\t', '\r', '\n'}

  /** `cleanField`: trim spaces, delete spaces, hyphens and dots, turn tabs, carriage
      returns and newlines into spaces, trim spaces again. */
  function CleanField(phone: string): (r: string)
    ensures forall x :: x in r ==> x != '-' && x != '.' && x != '\t' && x != '\r' && x != '\n'
    ensures r == [] || (r[0] != ' ' && r[|r| - 1] != ' ')
  {
    var s0 := Trim(phone, ' ');
    var s1 := Strip(s0, {' '});
    var s2 := Strip(s1, {'-'});
    var s3 := Strip(s2, {'.'});
    DeletionsAvoid(s1);
    var s4 := Subst(s3, '\t', ' ');
    var s5 := Subst(s4, '\r', ' ');
    var s6 := Subst(s5, '\n', ' ');
    ConversionsAvoid(s3);
    Trim(s6, ' ')
  }

  lemma DeletionsAvoid(s1: string)
    ensures forall x :: x in Strip(Strip(s1, {'-'}), {'.'}) ==> x != '-' && x != '.'
  {
    StripMembers(s1, {'-'});
    StripMembers(Strip(s1, {'-'}), {'.'});
  }

  lemma ConversionsAvoid(s3: string)
    requires forall x :: x in s3 ==> x != '-' && x != '.'
    ensures forall x :: x in Trim(Subst(Subst(Subst(s3, '\t', ' '), '\r', ' '), '\n', ' '), ' ') ==>
              x != '-' && x != '.' && x != '\t' && x != '\r' && x != '\n'
  {
    var s4 := Subst(s3, '\t', ' ');
    var s5 := Subst(s4, '\r', ' ');
    var s6 := Subst(s5, '\n', ' ');
    assert forall x :: x in s4 ==> x != '-' && x != '.' && x != '\t' by {
      SubstMembers(s3, '\t', ' ');
    }
    assert forall x :: x in s5 ==> x != '-' && x != '.' && x != '\t' && x != '\r' by {
      SubstMembers(s4, '\r', ' ');
    }
    assert forall x :: x in s6 ==> x != '-' && x != '.' && x != '\t' && x != '\r' && x != '\n' by {
      SubstMembers(s5, '\n', ' ');
    }
    TrimMembers(s6, ' ');
  }

  /** The characters of `s` that carry information: all of `Noise` deleted. */
  function Significant(s: string): string
  {
    Strip(s, Noise)
  }

  /** Apart from spaces, `cleanField` keeps exactly the significant characters, in order. */
  lemma CleanFieldKeepsSignificant(phone: string)
    ensures Strip(CleanField(phone), {' '}) == Significant(phone)
  {
    var s0 := Trim(phone, ' ');
    var s1 := Strip(s0, {' '});
    var s2 := Strip(s1, {'-'});
    var s3 := Strip(s2, {'.'});
    var s4 := Subst(s3, '\t', ' ');
    var s5 := Subst(s4, '\r', ' ');
    var s6 := Subst(s5, '\n', ' ');
    var w1: set<char> := {' ', '\n'};
    var w2: set<char> := {' ', '\n', '\r'};
    var w3: set<char> := {' ', '\n', '\r', '\t'};
    var w4: set<char> := {'.', ' ', '\n', '\r', '\t'};
    var w5: set<char> := {'-', '.', ' ', '\n', '\r', '\t'};
    assert {' '} + {'\n'} == w1;
    assert w1 + {'\r'} == w2;
    assert w2 + {'\t'} == w3;
    assert {'.'} + w3 == w4;
    assert {'-'} + w4 == w5;
    assert {' '} + w5 == w5;
    assert w5 == Noise;
    calc {
      Strip(CleanField(phone), {' '});
      Strip(Trim(s6, ' '), {' '});
      { TrimStrip(s6, ' ', {' '}); }
      Strip(s6, {' '});
      { StripSubst(s5, '\n', ' ', {' '}); }
      Strip(s5, w1);
      { StripSubst(s4, '\r', ' ', w1); }
      Strip(s4, w2);
      { StripSubst(s3, '\t', ' ', w2); }
      Strip(s3, w3);
      { StripStrip(s2, {'.'}, w3); }
      Strip(s2, w4);
      { StripStrip(s1, {'-'}, w4); }
      Strip(s1, w5);
      { StripStrip(s0, {' '}, w5); }
      Strip(s0, w5);
      { TrimStrip(phone, ' ', w5); }
      Strip(phone, w5);
    }
  }

  /** Without tabs, carriage returns and newlines, `cleanField` yields exactly the significant characters. */
  lemma CleanFieldOfSingleLine(phone: string)
    requires '\t' !in phone && '\r' !in phone && '\n' !in phone
    ensures CleanField(phone) == Significant(phone)
  {
    var s3 := Strip(Strip(Strip(Trim(phone, ' '), {' '}), {'-'}), {'.'});
    assert CleanField(phone) == s3 by {
      SingleLineDeletes(phone);
    }
    DeletionsSignificant(phone);
  }

  /** On a single line, `cleanField` only trims and deletes. */
  lemma SingleLineDeletes(phone: string)
    requires '\t' !in phone && '\r' !in phone && '\n' !in phone
    ensures var s3 := Strip(Strip(Strip(Trim(phone, ' '), {' '}), {'-'}), {'.'});
            && CleanField(phone) == s3
            && '\t' !in s3 && '\r' !in s3 && '\n' !in s3
  {
    var s0 := Trim(phone, ' ');
    var s1 := Strip(s0, {' '});
    var s2 := Strip(s1, {'-'});
    var s3 := Strip(s2, {'.'});
    assert '\t' !in s3 && '\r' !in s3 && '\n' !in s3 && ' ' !in s3 by {
      StripMembers(s0, {' '});
      StripMembers(s1, {'-'});
      StripMembers(s2, {'.'});
      TrimMembers(phone, ' ');
    }
    var s4 := Subst(s3, '\t', ' ');
    assert s4 == s3 by {
      SubstNothing(s3, '\t', ' ');
    }
    var s5 := Subst(s4, '\r', ' ');
    assert s5 == s3 by {
      SubstNothing(s3, '\r', ' ');
    }
    var s6 := Subst(s5, '\n', ' ');
    assert s6 == s3 by {
      SubstNothing(s3, '\n', ' ');
    }
    assert Trim(s6, ' ') == s3 by {
      TrimNothing(s3, ' ');
    }
  }

  /** Those deletions, on a single line, leave the significant characters. */
  lemma DeletionsSignificant(phone: string)
    requires '\t' !in phone && '\r' !in phone && '\n' !in phone
    ensures Strip(Strip(Strip(Trim(phone, ' '), {' '}), {'-'}), {'.'}) == Significant(phone)
  {
    var s0 := Trim(phone, ' ');
    var s1 := Strip(s0, {' '});
    var s2 := Strip(s1, {'-'});
    var s3 := Strip(s2, {'.'});
    SingleLineDeletes(phone);
    var w1: set<char> := {'.', '\t', '\r', '\n'};
    var w2: set<char> := {'-', '.', '\t', '\r', '\n'};
    assert {'.'} + {'\t', '\r', '\n'} == w1;
    assert {'-'} + w1 == w2;
    assert {' '} + w2 == Noise;
    calc {
      s3;
      { StripNothing(s3, {'\t', '\r', '\n'}); }
      Strip(s3, {'\t', '\r', '\n'});
      { StripStrip(s2, {'.'}, {'\t', '\r', '\n'}); }
      Strip(s2, w1);
      { StripStrip(s1, {'-'}, w1); }
      Strip(s1, w2);
      { StripStrip(s0, {' '}, w2); }
      Strip(s0, Noise);
      { TrimStrip(phone, ' ', Noise); }
      Strip(phone, Noise);
    }
  }

  /** Cleaning twice leaves only the significant characters: the inner spaces that the
      first pass made out of tabs and line breaks are deleted by the second. */
  lemma CleanFieldTwice(phone: string)
    ensures CleanField(CleanField(phone)) == Significant(phone)
  {
    var sig := Significant(phone);
    CleanFieldKeepsSignificant(phone);
    StripMembers(phone, Noise);
    CleanAgain(CleanField(phone), sig);
  }

  /** A single-line text whose non-space characters are significant ones and carry no
      noise is cleaned to exactly those characters. */
  lemma CleanAgain(r: string, sig: string)
    requires '\t' !in r && '\r' !in r && '\n' !in r
    requires Strip(r, {' '}) == sig
    requires forall x :: x in sig ==> x !in Noise
    ensures CleanField(r) == sig
  {
    CleanFieldOfSingleLine(r);
    assert {' '} + Noise == Noise;
    StripStrip(r, {' '}, Noise);
    StripNothing(sig, Noise);
  }

  /** `cleanField` is idempotent on an input exactly when its result has no inner space. */
  lemma CleanFieldIdempotentIff(phone: string)
    ensures CleanField(CleanField(phone)) == CleanField(phone) <==> ' ' !in CleanField(phone)
  {
    var r := CleanField(phone);
    CleanFieldTwice(phone);
    CleanFieldKeepsSignificant(phone);
    StripMembers(phone, Noise);
    StripMembers(r, {' '});
    if ' ' !in r {
      StripNothing(r, {' '});
    }
  }

  /** `cleanField` as its deleting half followed by its converting half. */
  lemma CleanFieldStages(phone: string, kept: string, result: string)
    requires Strip(Strip(Strip(Trim(phone, ' '), {' '}), {'-'}), {'.'}) == kept
    requires Trim(Subst(Subst(Subst(kept, '\t', ' '), '\r', ' '), '\n', ' '), ' ') == result
    ensures CleanField(phone) == result
  {
  }

  lemma ExampleTrim()
    ensures Trim(" 099 123-456.\t", ' ') == "099 123-456.\t"
  {
    assert TrimLeft(" 099 123-456.\t", ' ') == "099 123-456.\t";
  }

  lemma ExampleSpaces()
    ensures Strip("099 123-456.\t", {' '}) == "099123-456.\t"
  {
    assert "099 123-456.\t" == "099" + [' '] + "123-456.\t";
    DropOne("099", ' ', "123-456.\t");
    assert "099" + "123-456.\t" == "099123-456.\t";
  }

  lemma ExampleHyphens()
    ensures Strip("099123-456.\t", {'-'}) == "099123456.\t"
  {
    assert "099123-456.\t" == "099123" + ['-'] + "456.\t";
    DropOne("099123", '-', "456.\t");
    assert "099123" + "456.\t" == "099123456.\t";
  }

  lemma ExampleDots()
    ensures Strip("099123456.\t", {'.'}) == "099123456\t"
  {
    assert "099123456.\t" == "099123456" + ['.'] + "\t";
    DropOne("099123456", '.', "\t");
    assert "099123456" + "\t" == "099123456\t";
  }

  lemma ExampleDeletions()
    ensures Strip(Strip(Strip(Trim(" 099 123-456.\t", ' '), {' '}), {'-'}), {'.'}) == "099123456\t"
  {
    ExampleTrim();
    ExampleSpaces();
    ExampleHyphens();
    ExampleDots();
  }

  lemma ExampleTab()
    ensures Subst("099123456\t", '\t', ' ') == "099123456 "
  {
    SubstAt("099123456\t", '\t', ' ');
    assert forall i :: 0 <= i < 10 ==> Subst("099123456\t", '\t', ' ')[i] == "099123456 "[i];
  }

  lemma ExampleNoBreaks()
    ensures Subst(Subst("099123456 ", '\r', ' '), '\n', ' ') == "099123456 "
  {
    var s := "099123456 ";
    assert forall k :: 0 <= k < |s| ==> s[k] != '\r' && s[k] != '\n';
    SubstNothing(s, '\r', ' ');
    SubstNothing(s, '\n', ' ');
  }

  lemma ExampleTrailing()
    ensures Trim("099123456 ", ' ') == "099123456"
  {
    assert TrimLeft("099123456 ", ' ') == "099123456 ";
    assert TrimRight("099123456 ", ' ') == "099123456";
  }

  lemma ExampleConversions()
    ensures Trim(Subst(Subst(Subst("099123456\t", '\t', ' '), '\r', ' '), '\n', ' '), ' ') == "099123456"
  {
    ExampleTab();
    ExampleNoBreaks();
    ExampleTrailing();
  }

  /** The worked example: spaces, a hyphen, a dot and a trailing tab disappear. */
  lemma CleanFieldExample()
    ensures CleanField(" 099 123-456.\t") == "099123456"
  {
    ExampleDeletions();
    ExampleConversions();
    CleanFieldStages(" 099 123-456.\t", "099123456\t", "099123456");
  }

  lemma TabDeletions()
    ensures Strip(Strip(Strip(Trim("1\t2", ' '), {' '}), {'-'}), {'.'}) == "1\t2"
  {
    TrimNothing("1\t2", ' ');
    StripNothing("1\t2", {' '});
    StripNothing("1\t2", {'-'});
    StripNothing("1\t2", {'.'});
  }

  lemma TabConversions()
    ensures Trim(Subst(Subst(Subst("1\t2", '\t', ' '), '\r', ' '), '\n', ' '), ' ') == "1 2"
  {
    SubstAt("1\t2", '\t', ' ');
    assert Subst("1\t2", '\t', ' ') == "1 2";
    SubstNothing("1 2", '\r', ' ');
    SubstNothing("1 2", '\n', ' ');
    TrimUntouched("1 2", ' ');
  }

  lemma SpaceDeletions()
    ensures Strip(Strip(Strip(Trim("1 2", ' '), {' '}), {'-'}), {'.'}) == "12"
  {
    TrimUntouched("1 2", ' ');
    assert "1 2" == "1" + [' '] + "2";
    DropOne("1", ' ', "2");
    StripNothing("12", {'-'});
    StripNothing("12", {'.'});
  }

  lemma SpaceConversions()
    ensures Trim(Subst(Subst(Subst("12", '\t', ' '), '\r', ' '), '\n', ' '), ' ') == "12"
  {
    SubstNothing("12", '\t', ' ');
    SubstNothing("12", '\r', ' ');
    SubstNothing("12", '\n', ' ');
    assert Trim("12", ' ') == "12";
  }

  /** A tab between digits shows that `cleanField` is not idempotent. */
  lemma CleanFieldNotIdempotent()
    ensures CleanField("1\t2") == "1 2"
    ensures CleanField(CleanField("1\t2")) == "12"
  {
    TabDeletions();
    TabConversions();
    CleanFieldStages("1\t2", "1\t2", "1 2");
    SpaceDeletions();
    SpaceConversions();
    CleanFieldStages("1 2", "12", "12");
  }

  /** The character a cache file name carries in place of `c`: '_' for a space, a
      parenthesis, '+', '.' and '%'. */
  function FileSafe(c: char): char
  {
    if c == ' ' || c == '(' || c == ')' || c == '+' || c == '.' || c == '%' then '_' else c
  }

  /** `nameForCategoryPubsFile`: the cache file name of a category. */
  function NameForCategoryPubsFile(catName: string): (r: string)
    ensures |r| == |catName|
    ensures forall i :: 0 <= i < |r| ==> r[i] == FileSafe(catName[i])
  {
    var s1 := Subst(catName, ' ', '_');
    var s2 := Subst(s1, '(', '_');
    var s3 := Subst(s2, ')', '_');
    var s4 := Subst(s3, '+', '_');
    var s5 := Subst(s4, '.', '_');
    SubstAt(catName, ' ', '_');
    SubstAt(s1, '(', '_');
    SubstAt(s2, ')', '_');
    SubstAt(s3, '+', '_');
    SubstAt(s4, '.', '_');
    SubstAt(s5, '%', '_');
    Subst(s5, '%', '_')
  }

  /** The file name is a fixed point: naming it again changes nothing. */
  lemma NameForCategoryPubsFileIdempotent(catName: string)
    ensures NameForCategoryPubsFile(NameForCategoryPubsFile(catName)) == NameForCategoryPubsFile(catName)
  {
  }

  /** Two category names share a cache file exactly when they agree up to the
      characters replaced by '_'. */
  lemma CacheFileNamesShared(a: string, b: string)
    ensures NameForCategoryPubsFile(a) == NameForCategoryPubsFile(b) <==>
            |a| == |b| && forall i :: 0 <= i < |a| ==> FileSafe(a[i]) == FileSafe(b[i])
  {
    var x := NameForCategoryPubsFile(a);
    var y := NameForCategoryPubsFile(b);
    if x == y {
      forall i | 0 <= i < |a| ensures FileSafe(a[i]) == FileSafe(b[i]) {
        assert x[i] == y[i];
      }
    }
  }

  /** Distinct category names can share one cache file. */
  lemma CacheFileNamesCollide()
    ensures NameForCategoryPubsFile("a b") == NameForCategoryPubsFile("a.b")
  {
    CacheFileNamesShared("a b", "a.b");
  }

  /** The Spanish label of each day, in the lowercase form the timetable shows. */
  function SpanishName(d: DayOfWeek): string
    requires d != UnknownDay
  {
    match d
    case Monday => "lunes"
    case Tuesday => "martes"
    case Wednesday => "mi\U{e9}rcoles"
    case Thursday => "jueves"
    case Friday => "viernes"
    case Saturday => "s\U{e1}bado"
    case Sunday => "domingo"
  }

  /** `toDayOfWeek`: the day a Spanish label names, `UnknownDay` for any other text. */
  function ToDayOfWeek(day: string): (d: DayOfWeek)
    ensures d != UnknownDay ==> SpanishName(d) == day
    ensures d == UnknownDay <==> forall e :: e != UnknownDay ==> SpanishName(e) != day
  {
    if day == "lunes" then Monday
    else if day == "martes" then Tuesday
    else if day == "mi\U{e9}rcoles" then Wednesday
    else if day == "jueves" then Thursday
    else if day == "viernes" then Friday
    else if day == "s\U{e1}bado" then Saturday
    else if day == "domingo" then Sunday
    else UnknownDay
  }

  /** Every day other than `UnknownDay` is recognised from its label. */
  lemma ToDayOfWeekRoundTrip(d: DayOfWeek)
    requires d != UnknownDay
    ensures ToDayOfWeek(SpanishName(d)) == d
  {
  }
}
