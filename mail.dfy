/**
 * Normalisation of one fetched Gmail message into the expense it yields:
 * header lookup, choice of the body part, the merchant taken from the From
 * header, the date, the amount and the raw snapshot.
 */
module Mail {
  import opened Common
  import opened Text
  import opened Dates
  import opened Amounts
  import opened Expenses

  datatype Header = Header(name: string, value: string)

  /** One element of `payload["parts"]`: its `mimeType` and `body.data`,
      each possibly missing. */
  datatype Part = Part(mimeType: Option<string>, data: Option<string>)

  /** `payload`: its headers, its `parts` when the key is present, and its
      own `body.data`. A message without a payload has no headers, no parts
      and no body. */
  datatype Payload = Payload(headers: seq<Header>, parts: Option<seq<Part>>, bodyData: Option<string>)

  /**
   * The library calls the normalisation relies on, as given functions:
   * `decode` is URL-safe base64 decoding followed by UTF-8 decoding that
   * drops bad bytes; `parseDate` is `parsedate_to_datetime(..).date()`,
   * `None` where it raises; `rawJson` is
   * `json.dumps({"subject": subject, "from": from})`.
   */
  datatype MailCodec = MailCodec(
    decode: string -> string,
    parseDate: string -> Option<CalendarDate>,
    rawJson: (string, string) -> string)

  predicate NameIs(h: Header, name: string)
  {
    LowerAscii(h.name) == name
  }

  /** `next((h["value"] for h in headers if h["name"].lower() == name), "")`. */
  function HeaderValue(headers: seq<Header>, name: string): (v: string)
    ensures (forall i :: 0 <= i < |headers| ==> !NameIs(headers[i], name)) ==> v == ""
    ensures forall i :: (0 <= i < |headers| && NameIs(headers[i], name)
      && (forall j :: 0 <= j < i ==> !NameIs(headers[j], name))) ==> v == headers[i].value
  {
    if headers == [] then ""
    else if NameIs(headers[0], name) then headers[0].value
    else
      var v := HeaderValue(headers[1..], name);
      assert forall i :: 1 <= i < |headers| ==> headers[i] == headers[1..][i - 1];
      v
  }

  /** A part the body may be taken from: `text/plain` with non-empty data. */
  predicate IsPlainText(p: Part)
  {
    p.mimeType == Some("text/plain") && p.data.Some? && p.data.value != ""
  }

  /** The data of the first plain-text part, if any. */
  function FirstPlainText(parts: seq<Part>): (r: Option<string>)
    ensures r.None? <==> forall i :: 0 <= i < |parts| ==> !IsPlainText(parts[i])
    ensures r.Some? ==> exists i :: (0 <= i < |parts| && IsPlainText(parts[i]) && parts[i].data == r
      && forall j :: 0 <= j < i ==> !IsPlainText(parts[j]))
  {
    if parts == [] then None
    else if IsPlainText(parts[0]) then parts[0].data
    else
      var r := FirstPlainText(parts[1..]);
      assert forall i :: 1 <= i < |parts| ==> parts[i] == parts[1..][i - 1];
      assert r.Some? ==> exists i :: (0 <= i < |parts| && IsPlainText(parts[i]) && parts[i].data == r
          && forall j :: 0 <= j < i ==> !IsPlainText(parts[j])) by {
        if r.Some? {
          var i :| 0 <= i < |parts[1..]| && IsPlainText(parts[1..][i]) && parts[1..][i].data == r
            && forall j :: 0 <= j < i ==> !IsPlainText(parts[1..][j]);
          assert IsPlainText(parts[i + 1]) && forall j :: 0 <= j < i + 1 ==> !IsPlainText(parts[j]);
        }
      }
      r
  }

  /** The encoded body the message text comes from: the first plain-text
      part when the payload has parts, otherwise its own non-empty data. */
  function BodyData(p: Payload): (r: Option<string>)
    ensures r.Some? ==> r.value != ""
    ensures p.parts.Some? ==> r == FirstPlainText(p.parts.value)
    ensures p.parts.None? ==> (r.Some? <==> p.bodyData.Some? && p.bodyData.value != "")
  {
    if p.parts.Some? then FirstPlainText(p.parts.value)
    else if p.bodyData.Some? && p.bodyData.value != "" then p.bodyData
    else None
  }

  function Body(p: Payload, codec: MailCodec): string
  {
    match BodyData(p)
    case None => ""
    case Some(data) => codec.decode(data)
  }

  /** `from_.split("<")[0].strip() or from_`: the display name before an
      angle-bracketed address, or the whole header when that is blank. */
  function Merchant(from: string): (r: string)
    ensures r == from || ('<' !in r && r != [] && !IsSpace(r[0]) && !IsSpace(r[|r| - 1]))
    ensures r == [] <==> from == []
  {
    var name := Strip(BeforeFirst(from, '<'));
    if name == [] then from
    else
      NoMarkerInName(from);
      StripSpec(BeforeFirst(from, '<'));
      name
  }

  lemma NoMarkerInName(from: string)
    ensures '<' !in Strip(BeforeFirst(from, '<'))
  {
    var before := BeforeFirst(from, '<');
    var name := Strip(before);
    var i := LeadingSpaces(before);
    NotInSlice(before, '<', i, i + |name|);
  }

  lemma NotInSlice(s: string, c: char, i: nat, j: nat)
    requires c !in s && i <= j <= |s|
    ensures c !in s[i..j]
  {
    var t := s[i..j];
    forall k | 0 <= k < |t| ensures t[k] != c {
      assert t[k] == s[i + k];
    }
  }

  /** A merchant other than the whole header is the display name as it
      appears in the header, after its leading blanks. */
  lemma MerchantWithinFrom(from: string)
    requires Merchant(from) != from
    ensures var r, i := Merchant(from), LeadingSpaces(BeforeFirst(from, '<'));
      i + |r| <= |from| && from[i..i + |r|] == r
  {
    var before := BeforeFirst(from, '<');
    var name := Strip(before);
    var i := LeadingSpaces(before);
    assert Merchant(from) == name;
    SliceOfPrefix(from, |before|, i, i + |name|);
  }

  lemma SliceOfPrefix(s: string, n: nat, i: nat, j: nat)
    requires i <= j <= n <= |s|
    ensures s[..n][i..j] == s[i..j]
  {
  }

  /**
   * What the merchant is, stated without `strip`, when the part `b` of the
   * header before the first '<' is not blank: `b` with its whitespace runs at
   * both ends cut off (`LeadingSpacesSpec` and `TrailingSpacesSpec` say the
   * runs are whitespace and maximal, `StripNonBlank` that what is left starts
   * and ends with a non-blank).
   */
  lemma MerchantOfName(from: string, b: string)
    requires b == BeforeFirst(from, '<') && !Blank(b)
    ensures LeadingSpaces(b) < |b| - TrailingSpaces(b)
    ensures Merchant(from) == b[LeadingSpaces(b)..|b| - TrailingSpaces(b)]
  {
    StripNonBlank(b);
  }

  /** When the part of the header before the first '<' is blank, the merchant
      is the whole header. */
  lemma MerchantOfBlank(from: string)
    requires Blank(BeforeFirst(from, '<'))
    ensures Merchant(from) == from
  {
    var b := BeforeFirst(from, '<');
    BlankLeadingSpaces(b);
  }

  /** "Name <address>" yields the name, whatever surrounds the address. */
  lemma MerchantOfNamedAddress(name: string, address: string)
    requires name != [] && '<' !in name && !IsSpace(name[0]) && !IsSpace(name[|name| - 1])
    ensures Merchant(name + " <" + address) == name
  {
    var s := name + " ";
    BeforeFirstAppend(s, "<" + address, '<');
    assert name + " <" + address == s + ("<" + address);
    var r := Strip(s);
    LeadingSpacesSpec(s);
    TrailingSpacesSpec(s);
    assert LeadingSpaces(s) == 0;
    assert s[|name| - 1] == name[|name| - 1];
    assert !IsSpace(s[|name| - 1]) && IsSpace(s[|name|]);
    assert r == s[..|name|] == name;
  }

  /** A From header without a display name is kept whole. */
  lemma MerchantOfBareAddress(address: string)
    requires address != []
    ensures Merchant("<" + address) == "<" + address
  {
    assert BeforeFirst("<" + address, '<') == [];
  }

  /** The most the raw snapshot keeps. */
  const RAW_LIMIT: nat := 1000

  /**
   * The expense a message yields, or `None` when the subject and body (joined
   * by a newline) hold no amount. The date is the parsed Date header, or
   * today when it does not parse.
   */
  function Candidate(p: Payload, codec: MailCodec, today: CalendarDate): Option<Entry>
  {
    var subject := HeaderValue(p.headers, "subject");
    var from := HeaderValue(p.headers, "from");
    var dateRaw := HeaderValue(p.headers, "date");
    var date := match codec.parseDate(dateRaw)
      case Some(d) => Iso(d)
      case None => Iso(today);
    match ParseAmount(Some(subject + "\n" + Body(p, codec)))
    case None => None
    case Some(amount) =>
      var raw := Truncate(codec.rawJson(subject, from), RAW_LIMIT);
      Some(Entry("gmail", date, Some(Merchant(from)), Some(subject), amount, Some(raw)))
  }

  /** A message is stored exactly when its text holds an amount, and then as
      a Gmail expense of that amount, described by its subject, with a raw
      snapshot of at most RAW_LIMIT characters. */
  lemma CandidateFields(p: Payload, codec: MailCodec, today: CalendarDate)
    ensures var r := Candidate(p, codec, today);
      var subject := HeaderValue(p.headers, "subject");
      var text := subject + "\n" + Body(p, codec);
      && (r.None? <==> ParseAmount(Some(text)).None?)
      && (r.Some? ==>
            && r.value.source == "gmail"
            && r.value.amount == ParseAmount(Some(text)).value >= 0.0
            && r.value.description == Some(subject)
            && r.value.merchant == Some(Merchant(HeaderValue(p.headers, "from")))
            && r.value.raw == Some(Truncate(codec.rawJson(subject, HeaderValue(p.headers, "from")), RAW_LIMIT))
            && |r.value.raw.value| <= RAW_LIMIT
            && |r.value.date| == 10)
  {
  }

  /** A Date header that parses gives the message's own date; one that does
      not gives today's. */
  lemma CandidateDate(p: Payload, codec: MailCodec, today: CalendarDate)
    requires Candidate(p, codec, today).Some?
    ensures var parsed := codec.parseDate(HeaderValue(p.headers, "date"));
      Candidate(p, codec, today).value.date == if parsed.Some? then Iso(parsed.value) else Iso(today)
  {
  }

  /** What the sync does with one message: the expense it yields, if any. */
  type Normalizer = Payload -> Option<Entry>

  function Normalize(codec: MailCodec, today: CalendarDate): Normalizer
  {
    p => Candidate(p, codec, today)
  }

  /** The entries a page of messages yields, in message order. */
  function Harvest(msgs: seq<Payload>, step: Normalizer): (es: seq<Entry>)
    ensures |es| <= |msgs|
  {
    if msgs == [] then []
    else
      var init := Harvest(msgs[..|msgs| - 1], step);
      match step(msgs[|msgs| - 1])
      case None => init
      case Some(e) => init + [e]
  }

  /** The number of messages skipped for want of an amount. */
  function Skipped(msgs: seq<Payload>, step: Normalizer): nat
  {
    if msgs == [] then 0
    else
      var last := if step(msgs[|msgs| - 1]).None? then 1 else 0;
      Skipped(msgs[..|msgs| - 1], step) + last
  }

  /** Every message is either stored or skipped, never both. */
  lemma {:induction false} HarvestAccounts(msgs: seq<Payload>, step: Normalizer)
    ensures |Harvest(msgs, step)| + Skipped(msgs, step) == |msgs|
    decreases |msgs|
  {
    if msgs != [] {
      HarvestAccounts(msgs[..|msgs| - 1], step);
    }
  }

  /** Every harvested entry is exactly what some message yields. */
  lemma {:induction false} HarvestFromMessages(msgs: seq<Payload>, step: Normalizer)
    ensures forall e :: e in Harvest(msgs, step) ==>
      exists i :: 0 <= i < |msgs| && step(msgs[i]) == Some(e)
    decreases |msgs|
  {
    if msgs != [] {
      var init := msgs[..|msgs| - 1];
      HarvestFromMessages(init, step);
      forall e | e in Harvest(msgs, step)
        ensures exists i :: 0 <= i < |msgs| && step(msgs[i]) == Some(e)
      {
        if e in Harvest(init, step) {
          var i :| 0 <= i < |init| && step(init[i]) == Some(e);
          assert msgs[i] == init[i];
        } else {
          assert step(msgs[|msgs| - 1]) == Some(e);
        }
      }
    }
  }

  /** Reading one more message adds what it yields, and nothing else. */
  lemma HarvestStep(msgs: seq<Payload>, i: nat, step: Normalizer)
    requires i < |msgs|
    ensures Harvest(msgs[..i + 1], step) == Harvest(msgs[..i], step)
      + (match step(msgs[i]) case None => [] case Some(e) => [e])
  {
    assert msgs[..i + 1][..i] == msgs[..i];
  }

  /** Everything the sync stores from Gmail is marked as such, carries a
      non-negative amount, and keeps a bounded raw snapshot. */
  lemma GmailEntries(msgs: seq<Payload>, codec: MailCodec, today: CalendarDate)
    ensures forall e :: e in Harvest(msgs, Normalize(codec, today)) ==>
      && e.source == "gmail"
      && e.amount >= 0.0
      && e.description.Some?
      && e.raw.Some? && |e.raw.value| <= RAW_LIMIT
  {
    var step := Normalize(codec, today);
    HarvestFromMessages(msgs, step);
    forall e | e in Harvest(msgs, step)
      ensures e.source == "gmail" && e.amount >= 0.0 && e.description.Some?
        && e.raw.Some? && |e.raw.value| <= RAW_LIMIT
    {
      var i :| 0 <= i < |msgs| && step(msgs[i]) == Some(e);
      CandidateFields(msgs[i], codec, today);
    }
  }
}
