/**
 * The link registry shared by every page: the `shortenedUrls` list that the application
 * component owns and hands, with its setter, to the shortener, statistics and redirect
 * pages; the lookup of a short code (`find` on `shortCode`) and the click recording that
 * the "Test" button and the redirect page both perform.
 */
module Registry {
  import opened Basics

  /** One entry of a link's click history: when it was followed, and from where. */
  datatype ClickEvent = ClickEvent(timestamp: int, source: string)

  /** A `Date` as the pages hold and compare it: a time value in milliseconds since the
      epoch, or the Invalid Date, whose time value is NaN, so that every `<`, `>` and `>=`
      against it is false. */
  datatype Date = At(ms: int) | InvalidDate

  /** The largest magnitude of a time value: 100,000,000 days in milliseconds. */
  const MaxTimeValue: int := 8_640_000_000_000_000

  /** `new Date(t)` for a whole number of milliseconds `t`: ECMAScript's TimeClip makes a
      value beyond 8.64e15 in magnitude the Invalid Date. */
  function MakeDate(t: int): (d: Date)
    ensures d.At? <==> -MaxTimeValue <= t <= MaxTimeValue
    ensures d.At? ==> d.ms == t
  {
    if -MaxTimeValue <= t <= MaxTimeValue then At(t) else InvalidDate
  }

  /** `new Date() > d` at clock `now`: false whenever `d` is the Invalid Date. */
  predicate IsPast(d: Date, now: int) {
    d.At? && now > d.ms
  }

  /** A short link as the pages store it. The creation time is the clock reading in
      milliseconds; the expiry is a `Date`, which may be invalid. */
  datatype LinkRecord = LinkRecord(
    id: int,
    originalUrl: string,
    shortCode: string,
    shortUrl: string,
    createdAt: int,
    expiryDate: Date,
    clicks: int,
    clickHistory: seq<ClickEvent>)

  /** The `shortenedUrls` state: one list, replaced as a whole by every setter call. */
  class Store {
    var links: seq<LinkRecord>

    constructor ()
      ensures links == []
    {
      links := [];
    }
  }

  predicate HasCode(links: seq<LinkRecord>, code: string) {
    exists i :: 0 <= i < |links| && links[i].shortCode == code
  }

  /** `links[i]` is the record that `links.find(u => u.shortCode === code)` returns. */
  predicate IsFirstWithCode(links: seq<LinkRecord>, code: string, i: int) {
    0 <= i < |links| && links[i].shortCode == code &&
    forall j :: 0 <= j < i ==> links[j].shortCode != code
  }

  /** The position of the first record carrying `code`, if any. */
  function FindCode(links: seq<LinkRecord>, code: string): (r: Option<nat>)
    ensures r.None? <==> !HasCode(links, code)
    ensures r.Some? ==> IsFirstWithCode(links, code, r.value)
  {
    if links == [] then None
    else if links[0].shortCode == code then Some(0)
    else match FindCode(links[1..], code)
      case None =>
        assert forall i :: 1 <= i < |links| ==> links[i] == links[1..][i - 1];
        None
      case Some(i) => Some(i + 1)
  }

  /** The invariant that every click recorded is also counted. */
  predicate ClicksMatchHistory(link: LinkRecord) {
    link.clicks == |link.clickHistory|
  }

  /** One followed click on one record. */
  function Click(link: LinkRecord, event: ClickEvent): LinkRecord {
    link.(clicks := link.clicks + 1, clickHistory := link.clickHistory + [event])
  }

  /** `links.map(u => u.shortCode === code ? {...u, clicks: u.clicks + 1,
      clickHistory: [...u.clickHistory, event]} : u)`. */
  function RecordClick(links: seq<LinkRecord>, code: string, event: ClickEvent): (r: seq<LinkRecord>)
    ensures |r| == |links|
  {
    if links == [] then []
    else [if links[0].shortCode == code then Click(links[0], event) else links[0]]
         + RecordClick(links[1..], code, event)
  }

  lemma {:induction false} RecordClickAt(links: seq<LinkRecord>, code: string, event: ClickEvent, i: nat)
    requires i < |links|
    ensures RecordClick(links, code, event)[i]
         == if links[i].shortCode == code then Click(links[i], event) else links[i]
  {
    if i > 0 {
      RecordClickAt(links[1..], code, event, i - 1);
    }
  }

  /** Recording a click touches exactly the records that carry the code, wherever they
      are in the list: each gains one click and has the event appended to its history,
      every other field of it is kept, and every other record is left as it was. */
  lemma RecordClickEffect(links: seq<LinkRecord>, code: string, event: ClickEvent)
    ensures |RecordClick(links, code, event)| == |links|
    ensures forall i :: 0 <= i < |links| && links[i].shortCode == code ==>
      var r := RecordClick(links, code, event)[i];
      r.clicks == links[i].clicks + 1 &&
      r.clickHistory == links[i].clickHistory + [event] &&
      r.(clicks := links[i].clicks, clickHistory := links[i].clickHistory) == links[i]
    ensures forall i :: 0 <= i < |links| && links[i].shortCode != code ==>
      RecordClick(links, code, event)[i] == links[i]
  {
    forall i | 0 <= i < |links| {
      RecordClickAt(links, code, event, i);
    }
  }

  /** Recording a click keeps `clicks == |clickHistory|` on every record where it held. */
  lemma RecordClickKeepsClickCount(links: seq<LinkRecord>, code: string, event: ClickEvent)
    ensures forall i :: 0 <= i < |links| && ClicksMatchHistory(links[i]) ==>
      ClicksMatchHistory(RecordClick(links, code, event)[i])
  {
    forall i | 0 <= i < |links| {
      RecordClickAt(links, code, event, i);
    }
  }

  /** What following a short code at time `now` does to the list. */
  datatype VisitOutcome =
    | NoSuchCode
    | PastExpiry
    | Clicked(target: LinkRecord, links: seq<LinkRecord>)

  /** The common part of the "Test" button and the redirect page: find the first record
      with the code, refuse it when `now > expiryDate` (never for the Invalid Date), and
      otherwise record a click with the given source on every record carrying the code. */
  function Visit(links: seq<LinkRecord>, code: string, now: int, source: string): (v: VisitOutcome)
    ensures v.NoSuchCode? <==> !HasCode(links, code)
    ensures forall i :: IsFirstWithCode(links, code, i) ==>
      (v.PastExpiry? <==> links[i].expiryDate.At? && now > links[i].expiryDate.ms) &&
      (v.Clicked? ==> v.target == links[i])
    ensures v.Clicked? ==> v.links == RecordClick(links, code, ClickEvent(now, source))
  {
    match FindCode(links, code)
    case None => NoSuchCode
    case Some(i) =>
      if IsPast(links[i].expiryDate, now) then PastExpiry
      else Clicked(links[i], RecordClick(links, code, ClickEvent(now, source)))
  }

  /** At the very millisecond of its expiry date a link still resolves: only a clock
      strictly past it is refused. */
  lemma ResolvesAtExpiryInstant(links: seq<LinkRecord>, code: string, i: int, source: string)
    requires IsFirstWithCode(links, code, i)
    ensures links[i].expiryDate.At? ==> Visit(links, code, links[i].expiryDate.ms, source).Clicked?
  {
  }

  /** A link whose expiry is the Invalid Date is never refused: it resolves at every clock. */
  lemma UndatedLinkAlwaysResolves(links: seq<LinkRecord>, code: string, i: int, now: int, source: string)
    requires IsFirstWithCode(links, code, i) && links[i].expiryDate == InvalidDate
    ensures Visit(links, code, now, source).Clicked?
    ensures Visit(links, code, now, source).target == links[i]
  {
  }
}
