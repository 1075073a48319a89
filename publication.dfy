/** The crawler's records: categories, phones, days, hour ranges, addresses and
    publications, with the short category name derived from a category URL. */
module Publication {
  import opened Text

  /** A directory category as found on a category index page. */
  datatype Category = Category(url: string, name: string)
  {
    /** The short name: the text after the first "q_" of the URL, cut at the next
        "q_" and then at the first '/'. The source indexes the second part of a split,
        so a URL without "q_" has no short name (the call panics). */
    function CleanName(): (r: string)
      requires Contains(url, "q_")
      ensures '/' !in r
      ensures !Contains(r, "q_")
      ensures var rest := url[IndexOf(url, "q_") + 2..];
              |r| <= |rest| && r == rest[..|r|]
              && (|r| == |rest| || rest[|r|] == '/' || OccursAt(rest, "q_", |r|))
    {
      CleanNameShape(url);
      Split(Split(url, "q_")[1], "/")[0]
    }
  }

  /** The facts behind CleanName's contract, about the expression it evaluates. */
  lemma CleanNameShape(url: string)
    requires Contains(url, "q_")
    ensures |Split(url, "q_")| > 1
    ensures var r := Split(Split(url, "q_")[1], "/")[0];
            var rest := url[IndexOf(url, "q_") + 2..];
            && '/' !in r
            && !Contains(r, "q_")
            && |r| <= |rest| && r == rest[..|r|]
            && (|r| == |rest| || rest[|r|] == '/' || OccursAt(rest, "q_", |r|))
  {
    var i := IndexOf(url, "q_");
    var rest := url[i + 2..];
    var segment := SecondPart(url);
    FirstPart(rest, "q_");
    FirstPart(segment, "/");
    var r := Split(segment, "/")[0];
    SplitPartsFree(segment, "/");
    NoSlash(r);
    PrefixContains(segment, |r|, "q_");
    NestedPrefix(rest, segment, r);
  }

  /** The second part of splitting at "q_" is the first part of what follows the first "q_". */
  lemma SecondPart(url: string) returns (segment: string)
    requires Contains(url, "q_")
    ensures |Split(url, "q_")| > 1
    ensures segment == Split(url, "q_")[1]
    ensures segment == Split(url[IndexOf(url, "q_") + 2..], "q_")[0]
    ensures !Contains(segment, "q_")
  {
    IndexOfFirst(url, "q_");
    SplitFirst(url, "q_");
    SplitPartsFree(url, "q_");
    segment := Split(url, "q_")[1];
  }

  lemma NestedPrefix(rest: string, segment: string, r: string)
    requires |segment| <= |rest| && segment == rest[..|segment|]
    requires |segment| == |rest| || OccursAt(rest, "q_", |segment|)
    requires |r| <= |segment| && r == segment[..|r|]
    requires |r| == |segment| || OccursAt(segment, "/", |r|)
    ensures |r| <= |rest| && r == rest[..|r|]
    ensures |r| == |rest| || rest[|r|] == '/' || OccursAt(rest, "q_", |r|)
  {
    if |r| < |segment| {
      assert segment[|r|..|r| + 1] == "/";
      assert rest[|r|] == segment[|r|];
    }
  }

  /** The first part of a split is a prefix that ends at the first separator or at the end. */
  lemma FirstPart(s: string, sep: string)
    requires sep != []
    ensures var p := Split(s, sep)[0];
            |p| <= |s| && p == s[..|p|] && (|p| == |s| || OccursAt(s, sep, |p|))
  {
    IndexOfFirst(s, sep);
    SplitFirst(s, sep);
  }

  lemma NoSlash(r: string)
    requires !Contains(r, "/")
    ensures '/' !in r
  {
    if '/' in r {
      var k :| 0 <= k < |r| && r[k] == '/';
      assert OccursAt(r, "/", k);
    }
  }

  lemma PrefixContains(s: string, n: nat, t: string)
    requires n <= |s|
    requires !Contains(s, t)
    ensures !Contains(s[..n], t)
  {
    forall j | 0 <= j <= n && OccursAt(s[..n], t, j) ensures OccursAt(s, t, j) {
      assert s[..n][j..j + |t|] == s[j..j + |t|];
    }
  }

  /** `PhoneType`: the three kinds of phone the contact list distinguishes. */
  datatype PhoneType = Fixed | Mobil | Fax
  {
    /** The string value the source gives each constant. */
    function Value(): string
    {
      match this
      case Fixed => "office"
      case Mobil => "mobil"
      case Fax => "fax"
    }
  }

  datatype Phone = Phone(phoneType: PhoneType, number: string, isMain: bool, haveWhatsapp: bool)

  /** `DayOfWeek`: the seven days and the value used for an unrecognised label. */
  datatype DayOfWeek = UnknownDay | Monday | Tuesday | Wednesday | Thursday | Friday | Saturday | Sunday
  {
    function Value(): string
    {
      match this
      case UnknownDay => "unknown"
      case Monday => "monday"
      case Tuesday => "tuesday"
      case Wednesday => "wednesday"
      case Thursday => "thursday"
      case Friday => "friday"
      case Saturday => "saturday"
      case Sunday => "sunday"
    }
  }

  /** The constants carry distinct string values. */
  lemma ConstantValuesDistinct()
    ensures forall a: PhoneType, b: PhoneType :: a.Value() == b.Value() ==> a == b
    ensures forall a: DayOfWeek, b: DayOfWeek :: a.Value() == b.Value() ==> a == b
  {
  }

  datatype HourRange = HourRange(start: string, end: string)

  /** A day's opening hours, in table order; a day may be present with no ranges. */
  type Timetable = map<DayOfWeek, seq<HourRange>>

  /** Latitude and longitude; float64 values in the source, carried unchanged here. */
  datatype Coordinates = Coordinates(latitude: real, longitude: real)

  /** `AddressType`; `Unset` is the zero value, the only one extraction ever leaves. */
  datatype AddressType = Unset | Office | House | Apartment

  datatype Address = Address(addressType: AddressType, number: string, streetAddress: string,
                             locality: string, zip: string, city: string)

  datatype Publication = Publication(
    name: string,
    phones: seq<Phone>,
    mails: seq<string>,
    address: Address,
    coordinates: Coordinates,
    webs: seq<string>,
    categories: seq<string>,
    timetable: Timetable,
    publicationUrl: string,
    information: string)
}
