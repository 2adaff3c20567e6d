/**
 * The statistics page: the active/expired split and the click total it shows, the status
 * text of each row, and its two mutations, deleting one link by id and clearing all links.
 */
module StatisticsPage {
  import opened Registry

  /** `new Date() < u.expiryDate`: false for the Invalid Date. */
  predicate IsActive(link: LinkRecord, now: int) {
    link.expiryDate.At? && now < link.expiryDate.ms
  }

  /** `new Date() >= u.expiryDate`: false for the Invalid Date. */
  predicate IsExpired(link: LinkRecord, now: int) {
    link.expiryDate.At? && now >= link.expiryDate.ms
  }

  /** The number of records whose expiry is the Invalid Date. */
  function UndatedCount(links: seq<LinkRecord>): nat {
    if links == [] then 0
    else (if links[0].expiryDate == InvalidDate then 1 else 0) + UndatedCount(links[1..])
  }

  /** `shortenedUrls.filter(u => new Date() < u.expiryDate)`. */
  function ActiveUrls(links: seq<LinkRecord>, now: int): (r: seq<LinkRecord>)
    ensures forall k :: 0 <= k < |r| ==> r[k] in links && IsActive(r[k], now)
  {
    if links == [] then []
    else (if IsActive(links[0], now) then [links[0]] else []) + ActiveUrls(links[1..], now)
  }

  /** `shortenedUrls.filter(u => new Date() >= u.expiryDate)`. */
  function ExpiredUrls(links: seq<LinkRecord>, now: int): (r: seq<LinkRecord>)
    ensures forall k :: 0 <= k < |r| ==> r[k] in links && IsExpired(r[k], now)
  {
    if links == [] then []
    else (if IsExpired(links[0], now) then [links[0]] else []) + ExpiredUrls(links[1..], now)
  }

  /** `shortenedUrls.reduce((sum, u) => sum + u.clicks, 0)`. */
  function TotalClicks(links: seq<LinkRecord>): int {
    if links == [] then 0 else links[0].clicks + TotalClicks(links[1..])
  }

  /** The status shown on each row of the list. */
  function StatusText(link: LinkRecord, now: int): string {
    if IsExpired(link, now) then "Expired" else "Active"
  }

  /** For one clock reading every record is counted at most once: the active records, the
      expired ones and those whose expiry is the Invalid Date together are all records. So
      the two counts add up to the number of links exactly when no expiry is invalid. */
  lemma {:induction false} ActiveExpiredPartition(links: seq<LinkRecord>, now: int)
    ensures |ActiveUrls(links, now)| + |ExpiredUrls(links, now)| + UndatedCount(links) == |links|
    ensures UndatedCount(links) == 0 <==> forall i :: 0 <= i < |links| ==> links[i].expiryDate.At?
  {
    if links != [] {
      ActiveExpiredPartition(links[1..], now);
      assert forall i :: 1 <= i < |links| ==> links[i] == links[1..][i - 1];
    }
  }

  /** The active records are exactly the stored records with a valid expiry date still
      ahead, and the expired ones exactly those with a valid expiry date already reached;
      a record whose expiry is the Invalid Date is in neither list. */
  lemma {:induction false} ActiveExpiredMembers(links: seq<LinkRecord>, now: int)
    ensures forall l :: l in ActiveUrls(links, now) <==>
      l in links && l.expiryDate.At? && now < l.expiryDate.ms
    ensures forall l :: l in ExpiredUrls(links, now) <==>
      l in links && l.expiryDate.At? && now >= l.expiryDate.ms
  {
    if links != [] {
      ActiveExpiredMembers(links[1..], now);
      assert links == [links[0]] + links[1..];
    }
  }

  /** A row reads 'Expired' exactly when its record is among the expired count, and
      'Active' exactly when it is among the active count or its expiry is the Invalid Date. */
  lemma StatusAgreesWithCounts(links: seq<LinkRecord>, now: int)
    ensures forall i :: 0 <= i < |links| ==>
      (StatusText(links[i], now) == "Expired" <==> links[i] in ExpiredUrls(links, now)) &&
      (StatusText(links[i], now) == "Active" <==>
        links[i] in ActiveUrls(links, now) || links[i].expiryDate == InvalidDate)
  {
    ActiveExpiredMembers(links, now);
  }

  /** A record whose expiry date is exactly `now` is shown as expired, yet a visit at that
      instant still follows it: the two pages draw the boundary differently. */
  lemma ExpiryBoundaryDisagrees(links: seq<LinkRecord>, code: string, i: int, source: string)
    requires IsFirstWithCode(links, code, i)
    ensures links[i].expiryDate.At? ==>
      var now := links[i].expiryDate.ms;
      links[i] in ExpiredUrls(links, now) &&
      StatusText(links[i], now) == "Expired" &&
      Visit(links, code, now, source).Clicked?
  {
    if links[i].expiryDate.At? {
      ActiveExpiredMembers(links, links[i].expiryDate.ms);
      ResolvesAtExpiryInstant(links, code, i, source);
    }
  }

  /** A record whose expiry is the Invalid Date is counted neither as active nor as expired,
      yet its row reads 'Active' and every visit follows it, whatever the clock. */
  lemma UndatedLinkShownActive(links: seq<LinkRecord>, code: string, i: int, now: int, source: string)
    requires IsFirstWithCode(links, code, i) && links[i].expiryDate == InvalidDate
    ensures links[i] !in ActiveUrls(links, now) && links[i] !in ExpiredUrls(links, now)
    ensures StatusText(links[i], now) == "Active"
    ensures Visit(links, code, now, source).Clicked?
  {
    ActiveExpiredMembers(links, now);
  }

  /** The click total is additive over concatenation. */
  lemma {:induction false} TotalClicksAppend(a: seq<LinkRecord>, b: seq<LinkRecord>)
    ensures TotalClicks(a + b) == TotalClicks(a) + TotalClicks(b)
  {
    if a != [] {
      TotalClicksAppend(a[1..], b);
      assert (a + b)[1..] == a[1..] + b;
    } else {
      assert a + b == b;
    }
  }

  /** The number of records carrying `code`. */
  function CountCode(links: seq<LinkRecord>, code: string): nat {
    if links == [] then 0
    else (if links[0].shortCode == code then 1 else 0) + CountCode(links[1..], code)
  }

  /** One recorded visit raises the click total by the number of records carrying the code. */
  lemma {:induction false} TotalClicksAfterClick(links: seq<LinkRecord>, code: string, event: ClickEvent)
    ensures TotalClicks(RecordClick(links, code, event)) == TotalClicks(links) + CountCode(links, code)
  {
    if links != [] {
      TotalClicksAfterClick(links[1..], code, event);
    }
  }

  /** The records whose id is not `id`, in their order: `prev.filter(u => u.id !== id)`. */
  function WithoutId(links: seq<LinkRecord>, id: int): (r: seq<LinkRecord>)
    ensures |r| <= |links|
  {
    if links == [] then []
    else (if links[0].id != id then [links[0]] else []) + WithoutId(links[1..], id)
  }

  predicate HasId(links: seq<LinkRecord>, id: int) {
    exists i :: 0 <= i < |links| && links[i].id == id
  }

  /** Deleting keeps exactly the records with another id. */
  lemma {:induction false} WithoutIdMembers(links: seq<LinkRecord>, id: int)
    ensures forall l :: l in WithoutId(links, id) <==> l in links && l.id != id
  {
    if links != [] {
      WithoutIdMembers(links[1..], id);
      assert links == [links[0]] + links[1..];
    }
  }

  /** Deleting works piecewise, so the kept records stay in their original order. */
  lemma {:induction false} WithoutIdAppend(a: seq<LinkRecord>, b: seq<LinkRecord>, id: int)
    ensures WithoutId(a + b, id) == WithoutId(a, id) + WithoutId(b, id)
  {
    if a != [] {
      WithoutIdAppend(a[1..], b, id);
      assert (a + b)[1..] == a[1..] + b;
    } else {
      assert a + b == b;
    }
  }

  /** Deleting an id that no record carries leaves the list as it is. */
  lemma {:induction false} WithoutUnknownId(links: seq<LinkRecord>, id: int)
    requires !HasId(links, id)
    ensures WithoutId(links, id) == links
  {
    if links != [] {
      assert links[0].id != id;
      assert !HasId(links[1..], id) by {
        forall i | 0 <= i < |links| - 1 ensures links[1..][i].id != id {
          assert links[1..][i] == links[i + 1];
        }
      }
      WithoutUnknownId(links[1..], id);
    }
  }

  /** The statistics page, over the shared link list. */
  class Statistics {
    const store: Store

    constructor (store: Store)
      ensures this.store == store
    {
      this.store := store;
    }

    /** `deleteUrl(id)`: when `find` sees a record with the id, every record with that id is
        filtered out; otherwise nothing is set. Either way the list is the filtered one.
        `found` tells which of the two branches ran. */
    method DeleteUrl(id: int) returns (found: bool)
      modifies store
      ensures found <==> HasId(old(store.links), id)
      ensures store.links == WithoutId(old(store.links), id)
    {
      found := exists i :: 0 <= i < |store.links| && store.links[i].id == id;
      if found {
        store.links := WithoutId(store.links, id);
      } else {
        WithoutUnknownId(store.links, id);
      }
    }

    /** `clearAllUrls()`. */
    method ClearAllUrls()
      modifies store
      ensures store.links == []
    {
      store.links := [];
    }
  }
}
