/**
 * The redirect page: given the short code of the path, look it up, refuse an unknown or
 * expired link, and otherwise record a 'Direct Access' click and send the browser on to
 * the original URL.
 */
module RedirectPage {
  import opened Basics
  import opened Registry

  /** The page's `status` state. */
  datatype Status = Loading | Error | Expired | Redirecting

  const DirectAccess: string := "Direct Access"

  class Redirect {
    const store: Store
    const shortCode: string
    var status: Status
    /** The address the page sends the browser to once it is redirecting. */
    var destination: Option<string>

    constructor (store: Store, shortCode: string)
      ensures this.store == store && this.shortCode == shortCode
      ensures status == Loading && destination == None
    {
      this.store := store;
      this.shortCode := shortCode;
      status := Loading;
      destination := None;
    }

    /** `handleRedirect()`, run once at time `now`. */
    method HandleRedirect(now: int)
      modifies this`status, this`destination, store
      ensures match Visit(old(store.links), shortCode, now, DirectAccess)
        case NoSuchCode =>
          status == Error && store.links == old(store.links) && destination == old(destination)
        case PastExpiry =>
          status == Expired && store.links == old(store.links) && destination == old(destination)
        case Clicked(target, links) =>
          status == Redirecting && store.links == links && destination == Some(target.originalUrl)
    {
      var found := FindCode(store.links, shortCode);
      if found.None? {
        status := Error;
        return;
      }
      var urlData := store.links[found.value];
      if IsPast(urlData.expiryDate, now) {
        status := Expired;
        return;
      }
      store.links := RecordClick(store.links, shortCode, ClickEvent(now, DirectAccess));
      status := Redirecting;
      destination := Some(urlData.originalUrl);
    }
  }

  /** What one run of the redirect page does to the list and which address it goes to:
      an unknown code or a link past its expiry date changes nothing; otherwise every
      record with the code gains exactly one 'Direct Access' click at `now`, the others
      are untouched, the invariant `clicks == |clickHistory|` survives, and the browser
      goes to the original URL of the first record with the code. */
  lemma RedirectEffect(links: seq<LinkRecord>, code: string, now: int, i: int)
    requires IsFirstWithCode(links, code, i)
    ensures var v := Visit(links, code, now, DirectAccess);
      if IsPast(links[i].expiryDate, now) then v.PastExpiry?
      else
        v.Clicked? && v.target.originalUrl == links[i].originalUrl &&
        |v.links| == |links| &&
        (forall j :: 0 <= j < |links| && links[j].shortCode != code ==> v.links[j] == links[j]) &&
        (forall j :: 0 <= j < |links| && links[j].shortCode == code ==>
          v.links[j].clicks == links[j].clicks + 1 &&
          v.links[j].clickHistory == links[j].clickHistory + [ClickEvent(now, DirectAccess)]) &&
        (forall j :: 0 <= j < |links| && ClicksMatchHistory(links[j]) ==> ClicksMatchHistory(v.links[j]))
  {
    RecordClickEffect(links, code, ClickEvent(now, DirectAccess));
    RecordClickKeepsClickCount(links, code, ClickEvent(now, DirectAccess));
  }

  /** A client of the page: following a fresh link twice records two clicks on it. */
  method FollowTwice(store: Store, code: string, now: int) returns (clicks: int)
    requires |store.links| == 1 && store.links[0].shortCode == code
    requires store.links[0].clicks == 0 && store.links[0].clickHistory == []
    requires !IsPast(store.links[0].expiryDate, now + 1)
    modifies store
    ensures clicks == 2 && |store.links| == 1
    ensures store.links[0].clickHistory == [ClickEvent(now, DirectAccess), ClickEvent(now + 1, DirectAccess)]
  {
    var page := new Redirect(store, code);
    assert IsFirstWithCode(store.links, code, 0);
    page.HandleRedirect(now);
    RecordClickAt(old(store.links), code, ClickEvent(now, DirectAccess), 0);
    assert IsFirstWithCode(store.links, code, 0);
    ghost var middle := store.links;
    page.HandleRedirect(now + 1);
    RecordClickAt(middle, code, ClickEvent(now + 1, DirectAccess), 0);
    clicks := store.links[0].clicks;
  }
}
