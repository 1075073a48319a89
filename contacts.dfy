/** The contact block of a publication page: the phones, e-mails and web links.

    The page is given as what its selectors find: the texts of the main-phone spans,
    the texts of the WhatsApp spans, and the items of the contact lists in document
    order, each with the texts of its title spans, of its value spans and of its
    links. The last main-phone span and the last WhatsApp span, cleaned, are the
    numbers every phone is compared with. */
module ContactsExtractor {
  import opened Publication
  import opened FieldNormalizer

  datatype ContactItem = ContactItem(titles: seq<string>, values: seq<string>, links: seq<string>)

  datatype Contacts = Contacts(phones: seq<Phone>, emails: seq<string>, webs: seq<string>)

  /** The phone type a title announces: "Tel." a fixed line, "Fax" a fax, "Cel." a mobile. */
  function PhoneKind(title: string): (k: PhoneType)
    requires IsPhoneTitle(title)
    ensures title == "Tel." <==> k == Fixed
    ensures title == "Fax" <==> k == Fax
    ensures title == "Cel." <==> k == Mobil
  {
    if title == "Tel." then Fixed else if title == "Fax" then Fax else Mobil
  }

  predicate IsPhoneTitle(title: string)
  {
    title == "Fax" || title == "Tel." || title == "Cel."
  }

  /** The number a list of spans designates: the last one cleaned, "" when there is none. */
  function LastCleaned(spans: seq<string>): string
  {
    if spans == [] then "" else CleanField(spans[|spans| - 1])
  }

  /** The phone one value span makes under a title of kind `k`. */
  function MakePhone(k: PhoneType, value: string, main: string, whatsapp: string): Phone
  {
    var number := CleanField(value);
    Phone(k, number, number == main, number == whatsapp)
  }

  function ValuePhones(k: PhoneType, values: seq<string>, main: string, whatsapp: string): seq<Phone>
  {
    if values == [] then []
    else ValuePhones(k, values[..|values| - 1], main, whatsapp) + [MakePhone(k, values[|values| - 1], main, whatsapp)]
  }

  /** The phones an item yields: under each phone title, one phone per value span. */
  function ItemPhones(titles: seq<string>, values: seq<string>, main: string, whatsapp: string): seq<Phone>
  {
    if titles == [] then []
    else
      var last := titles[|titles| - 1];
      ItemPhones(titles[..|titles| - 1], values, main, whatsapp)
      + (if IsPhoneTitle(last) then ValuePhones(PhoneKind(last), values, main, whatsapp) else [])
  }

  function PhonesIn(items: seq<ContactItem>, main: string, whatsapp: string): seq<Phone>
  {
    if items == [] then []
    else
      var last := items[|items| - 1];
      PhonesIn(items[..|items| - 1], main, whatsapp) + ItemPhones(last.titles, last.values, main, whatsapp)
  }

  /** The links an item yields: all its links once per title equal to `heading`. */
  function ItemLinks(titles: seq<string>, links: seq<string>, heading: string): seq<string>
  {
    if titles == [] then []
    else ItemLinks(titles[..|titles| - 1], links, heading) + (if titles[|titles| - 1] == heading then links else [])
  }

  function LinksIn(items: seq<ContactItem>, heading: string): seq<string>
  {
    if items == [] then []
    else LinksIn(items[..|items| - 1], heading) + ItemLinks(items[|items| - 1].titles, items[|items| - 1].links, heading)
  }

  /** What `getContacts` collects from the items, against the given main and WhatsApp numbers. */
  function ContactsOf(items: seq<ContactItem>, main: string, whatsapp: string): Contacts
  {
    Contacts(PhonesIn(items, main, whatsapp), LinksIn(items, "Email"), LinksIn(items, "Web"))
  }

  /** `getContacts`. */
  method GetContacts(mainSpans: seq<string>, whatsappSpans: seq<string>, items: seq<ContactItem>)
    returns (c: Contacts)
    ensures c == ContactsOf(items, LastCleaned(mainSpans), LastCleaned(whatsappSpans))
    ensures forall k :: 0 <= k < |c.phones| ==> Flagged(c.phones[k], LastCleaned(mainSpans), LastCleaned(whatsappSpans))
  {
    var main := LastSpan(mainSpans);
    var whatsapp := LastSpan(whatsappSpans);
    var phones, emails, webs := [], [], [];
    for i := 0 to |items|
      invariant phones == PhonesIn(items[..i], main, whatsapp)
      invariant emails == LinksIn(items[..i], "Email")
      invariant webs == LinksIn(items[..i], "Web")
    {
      var itemPhones, itemEmails, itemWebs := ReadItem(items[i], main, whatsapp);
      phones, emails, webs := phones + itemPhones, emails + itemEmails, webs + itemWebs;
      assert items[..i + 1][..i] == items[..i];
    }
    assert items[..|items|] == items;
    c := Contacts(phones, emails, webs);
    PhonesFlagged(items, main, whatsapp);
  }

  /** The cleaned text of the last span, "" when there is none. */
  method LastSpan(spans: seq<string>) returns (number: string)
    ensures spans == [] ==> number == ""
    ensures spans != [] ==> number == CleanField(spans[|spans| - 1])
    ensures number == LastCleaned(spans)
  {
    number := "";
    for i := 0 to |spans|
      invariant number == LastCleaned(spans[..i])
    {
      number := CleanField(spans[i]);
      assert spans[..i + 1][i] == spans[i];
    }
    assert spans[..|spans|] == spans;
  }

  /** One item of a contact list: each title adds phones, web links or e-mails. */
  method ReadItem(item: ContactItem, main: string, whatsapp: string)
    returns (phones: seq<Phone>, emails: seq<string>, webs: seq<string>)
    ensures phones == ItemPhones(item.titles, item.values, main, whatsapp)
    ensures emails == ItemLinks(item.titles, item.links, "Email")
    ensures webs == ItemLinks(item.titles, item.links, "Web")
  {
    phones, emails, webs := [], [], [];
    for j := 0 to |item.titles|
      invariant phones == ItemPhones(item.titles[..j], item.values, main, whatsapp)
      invariant emails == ItemLinks(item.titles[..j], item.links, "Email")
      invariant webs == ItemLinks(item.titles[..j], item.links, "Web")
    {
      var title := item.titles[j];
      if IsPhoneTitle(title) {
        var kind := if title == "Tel." then Fixed else if title == "Fax" then Fax else Mobil;
        var more := ReadPhones(kind, item.values, main, whatsapp);
        phones := phones + more;
      } else if title == "Web" {
        webs := webs + item.links;
      } else if title == "Email" {
        emails := emails + item.links;
      }
      assert item.titles[..j + 1][..j] == item.titles[..j];
    }
    assert item.titles[..|item.titles|] == item.titles;
  }

  /** The phones of an item's value spans under one phone title. */
  method ReadPhones(kind: PhoneType, values: seq<string>, main: string, whatsapp: string)
    returns (phones: seq<Phone>)
    ensures phones == ValuePhones(kind, values, main, whatsapp)
  {
    phones := [];
    for k := 0 to |values|
      invariant phones == ValuePhones(kind, values[..k], main, whatsapp)
    {
      phones := phones + [MakePhone(kind, values[k], main, whatsapp)];
      ValuePhonesStep(kind, values, k, main, whatsapp);
    }
    assert values[..|values|] == values;
  }

  lemma ValuePhonesStep(kind: PhoneType, values: seq<string>, k: nat, main: string, whatsapp: string)
    requires k < |values|
    ensures ValuePhones(kind, values[..k + 1], main, whatsapp)
         == ValuePhones(kind, values[..k], main, whatsapp) + [MakePhone(kind, values[k], main, whatsapp)]
  {
    assert values[..k + 1][..k] == values[..k];
    assert values[..k + 1][k] == values[k];
  }

  // ---------------------------------------------------------------------------
  // Lemmas

  /** A phone is marked main exactly when its number is the main number, and marked
      WhatsApp exactly when its number is the WhatsApp number. */
  predicate Flagged(p: Phone, main: string, whatsapp: string)
  {
    (p.isMain <==> p.number == main) && (p.haveWhatsapp <==> p.number == whatsapp)
  }

  lemma {:induction false} ValuePhonesFlagged(k: PhoneType, values: seq<string>, main: string, whatsapp: string)
    ensures forall n :: 0 <= n < |ValuePhones(k, values, main, whatsapp)| ==>
              Flagged(ValuePhones(k, values, main, whatsapp)[n], main, whatsapp)
  {
    if values != [] {
      ValuePhonesFlagged(k, values[..|values| - 1], main, whatsapp);
    }
  }

  lemma {:induction false} ItemPhonesFlagged(titles: seq<string>, values: seq<string>, main: string, whatsapp: string)
    ensures forall n :: 0 <= n < |ItemPhones(titles, values, main, whatsapp)| ==>
              Flagged(ItemPhones(titles, values, main, whatsapp)[n], main, whatsapp)
  {
    if titles != [] {
      ItemPhonesFlagged(titles[..|titles| - 1], values, main, whatsapp);
      var last := titles[|titles| - 1];
      if IsPhoneTitle(last) {
        ValuePhonesFlagged(PhoneKind(last), values, main, whatsapp);
      }
    }
  }

  /** Every collected phone carries the flags its number calls for. */
  lemma {:induction false} PhonesFlagged(items: seq<ContactItem>, main: string, whatsapp: string)
    ensures forall n :: 0 <= n < |PhonesIn(items, main, whatsapp)| ==>
              Flagged(PhonesIn(items, main, whatsapp)[n], main, whatsapp)
  {
    if items != [] {
      PhonesFlagged(items[..|items| - 1], main, whatsapp);
      var last := items[|items| - 1];
      ItemPhonesFlagged(last.titles, last.values, main, whatsapp);
    }
  }

  /** The number of phone titles among `titles`. */
  function PhoneTitles(titles: seq<string>): nat
  {
    if titles == [] then 0
    else PhoneTitles(titles[..|titles| - 1]) + (if IsPhoneTitle(titles[|titles| - 1]) then 1 else 0)
  }

  function PhoneCount(items: seq<ContactItem>): nat
  {
    if items == [] then 0
    else PhoneCount(items[..|items| - 1]) + PhoneTitles(items[|items| - 1].titles) * |items[|items| - 1].values|
  }

  lemma {:induction false} ValuePhonesLength(k: PhoneType, values: seq<string>, main: string, whatsapp: string)
    ensures |ValuePhones(k, values, main, whatsapp)| == |values|
  {
    if values != [] {
      ValuePhonesLength(k, values[..|values| - 1], main, whatsapp);
    }
  }

  lemma {:induction false} ItemPhonesLength(titles: seq<string>, values: seq<string>, main: string, whatsapp: string)
    ensures |ItemPhones(titles, values, main, whatsapp)| == PhoneTitles(titles) * |values|
  {
    if titles != [] {
      var front := titles[..|titles| - 1];
      var last := titles[|titles| - 1];
      ItemPhonesLength(front, values, main, whatsapp);
      var a := PhoneTitles(front);
      if IsPhoneTitle(last) {
        ValuePhonesLength(PhoneKind(last), values, main, whatsapp);
        assert |ItemPhones(titles, values, main, whatsapp)| == a * |values| + |values|;
        assert PhoneTitles(titles) == a + 1;
        MulStep(a, |values|);
      } else {
        assert ItemPhones(titles, values, main, whatsapp) == ItemPhones(front, values, main, whatsapp);
        assert PhoneTitles(titles) == a;
      }
    }
  }

  lemma MulStep(a: nat, n: nat)
    ensures (a + 1) * n == a * n + n
  {
  }

  /** Each value span of an item yields one phone per phone title of that item. */
  lemma {:induction false} PhonesCounted(items: seq<ContactItem>, main: string, whatsapp: string)
    ensures |PhonesIn(items, main, whatsapp)| == PhoneCount(items)
  {
    if items != [] {
      PhonesCounted(items[..|items| - 1], main, whatsapp);
      var last := items[|items| - 1];
      ItemPhonesLength(last.titles, last.values, main, whatsapp);
    }
  }

  lemma {:induction false} ItemLinksMembers(titles: seq<string>, links: seq<string>, heading: string)
    ensures forall e :: e in ItemLinks(titles, links, heading) <==> heading in titles && e in links
  {
    if titles != [] {
      var front := titles[..|titles| - 1];
      ItemLinksMembers(front, links, heading);
      assert titles == front + [titles[|titles| - 1]];
    }
  }

  /** A link is collected under `heading` exactly when some item both has a title
      `heading` and holds that link. */
  lemma {:induction false} LinksMembers(items: seq<ContactItem>, heading: string)
    ensures forall e :: e in LinksIn(items, heading) <==>
              exists i :: 0 <= i < |items| && heading in items[i].titles && e in items[i].links
  {
    if items != [] {
      var front := items[..|items| - 1];
      var last := items[|items| - 1];
      LinksMembers(front, heading);
      ItemLinksMembers(last.titles, last.links, heading);
      forall e ensures (exists i :: 0 <= i < |items| && heading in items[i].titles && e in items[i].links) <==>
                       (exists i :: 0 <= i < |front| && heading in front[i].titles && e in front[i].links)
                       || (heading in last.titles && e in last.links)
      {
        if exists i :: 0 <= i < |front| && heading in front[i].titles && e in front[i].links {
          var i :| 0 <= i < |front| && heading in front[i].titles && e in front[i].links;
          assert items[i] == front[i];
        }
        if exists i :: 0 <= i < |items| && heading in items[i].titles && e in items[i].links {
          var i :| 0 <= i < |items| && heading in items[i].titles && e in items[i].links;
          if i < |front| {
            assert items[i] == front[i];
          }
        }
      }
    }
  }

  /** Items without a phone title yield no phones, whatever their value spans hold. */
  lemma {:induction false} NoPhoneTitleNoPhones(items: seq<ContactItem>, main: string, whatsapp: string)
    requires forall i, t :: 0 <= i < |items| && t in items[i].titles ==> !IsPhoneTitle(t)
    ensures PhonesIn(items, main, whatsapp) == []
  {
    if items != [] {
      var last := items[|items| - 1];
      NoPhoneTitleNoPhones(items[..|items| - 1], main, whatsapp);
      NoPhoneTitles(last.titles);
      ItemPhonesLength(last.titles, last.values, main, whatsapp);
    }
  }

  lemma {:induction false} NoPhoneTitles(titles: seq<string>)
    requires forall t :: t in titles ==> !IsPhoneTitle(t)
    ensures PhoneTitles(titles) == 0
  {
    if titles != [] {
      NoPhoneTitles(titles[..|titles| - 1]);
    }
  }
}
