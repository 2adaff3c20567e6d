/**
 * The link-creation page: the form of one to five rows, the batch creation with its chain
 * of rejections, and the "Test" button that follows a link from the page.
 *
 * `new URL(...)` parsing, `Math.random` and `Date.now` are not modelled; they come in as
 * parameters: `isValidUrl` decides whether a URL parses, `draw(k)` is the text
 * `Math.random().toString(36)` used for the `k`-th non-blank row, `mintId(k)` the id of
 * the record made from that row, and `now` the clock.
 */
module ShortenerPage {
  import opened Basics
  import opened Text
  import opened Registry

  /** The `validity` field of a form row: the number 30 a row starts with, or what the number
      input last held once the user typed into it: `""` (None) or the text of an integer. */
  datatype Validity = Minutes(n: int) | Typed(value: Option<int>)

  datatype FormRow = FormRow(id: int, url: string, code: string, validity: Validity)

  /** `updateUrl(id, field, value)` for the three fields the form edits. */
  datatype FieldUpdate = SetUrl(url: string) | SetCode(code: string) | SetValidity(value: Option<int>)

  const MaxRows: nat := 5
  const DefaultMinutes: int := 30
  const MillisPerMinute: int := 60000
  const ShortUrlPrefix: string := "http://localhost:3000/"

  function BlankRow(id: int): FormRow {
    FormRow(id, "", "", Minutes(DefaultMinutes))
  }

  /** The form as it starts and as it is reset after a successful batch. */
  const InitialRows: seq<FormRow> := [BlankRow(1)]

  predicate DistinctIds(rows: seq<FormRow>) {
    forall i, j :: 0 <= i < j < |rows| ==> rows[i].id != rows[j].id
  }

  predicate HasRowId(rows: seq<FormRow>, id: int) {
    exists i :: 0 <= i < |rows| && rows[i].id == id
  }

  /** The shape the form keeps: one to five rows with distinct ids. */
  predicate WellFormedRows(rows: seq<FormRow>) {
    1 <= |rows| <= MaxRows && DistinctIds(rows)
  }

  // ---------------------------------------------------------------- form rows

  /** `addUrl()`: a blank row with id `now` is appended only while there are fewer than five. */
  function AddRow(rows: seq<FormRow>, now: int): seq<FormRow> {
    if |rows| < MaxRows then rows + [BlankRow(now)] else rows
  }

  /** `urls.filter(u => u.id !== id)`. */
  function WithoutRow(rows: seq<FormRow>, id: int): (r: seq<FormRow>)
    ensures |r| <= |rows|
  {
    if rows == [] then []
    else (if rows[0].id != id then [rows[0]] else []) + WithoutRow(rows[1..], id)
  }

  /** `removeUrl(id)`: rows are filtered only while there are more than one. */
  function RemoveRow(rows: seq<FormRow>, id: int): seq<FormRow> {
    if |rows| > 1 then WithoutRow(rows, id) else rows
  }

  function Update(row: FormRow, update: FieldUpdate): FormRow {
    match update
    case SetUrl(u) => row.(url := u)
    case SetCode(c) => row.(code := c)
    case SetValidity(v) => row.(validity := Typed(v))
  }

  /** `urls.map(u => u.id === id ? {...u, [field]: value} : u)`. */
  function UpdateRow(rows: seq<FormRow>, id: int, update: FieldUpdate): seq<FormRow> {
    seq(|rows|, i requires 0 <= i < |rows| => if rows[i].id == id then Update(rows[i], update) else rows[i])
  }

  /** Adding keeps the form within five rows, keeps the existing rows as a prefix, and adds
      exactly one row when there was room; with a clock reading that no row carries as its
      id, the ids stay distinct. */
  lemma AddRowBounded(rows: seq<FormRow>, now: int)
    requires WellFormedRows(rows)
    ensures rows <= AddRow(rows, now)
    ensures |AddRow(rows, now)| == if |rows| < MaxRows then |rows| + 1 else |rows|
    ensures !HasRowId(rows, now) ==> WellFormedRows(AddRow(rows, now))
  {
  }

  lemma {:induction false} WithoutRowMembers(rows: seq<FormRow>, id: int)
    ensures forall r :: r in WithoutRow(rows, id) <==> r in rows && r.id != id
  {
    if rows != [] {
      WithoutRowMembers(rows[1..], id);
      assert rows == [rows[0]] + rows[1..];
    }
  }

  lemma {:induction false} WithoutRowDistinct(rows: seq<FormRow>, id: int)
    requires DistinctIds(rows)
    ensures DistinctIds(WithoutRow(rows, id))
  {
    if rows != [] {
      var tail := rows[1..];
      assert DistinctIds(tail) by {
        forall i, j | 0 <= i < j < |tail| ensures tail[i].id != tail[j].id {
          assert tail[i] == rows[i + 1] && tail[j] == rows[j + 1];
        }
      }
      WithoutRowDistinct(tail, id);
      WithoutRowMembers(tail, id);
      var rest := WithoutRow(tail, id);
      forall r | r in rest ensures r.id != rows[0].id {
        var k :| 0 <= k < |tail| && tail[k] == r;
        assert tail[k] == rows[k + 1];
      }
    }
  }

  lemma {:induction false} WithoutRowLength(rows: seq<FormRow>, id: int)
    requires DistinctIds(rows)
    ensures |WithoutRow(rows, id)| == if HasRowId(rows, id) then |rows| - 1 else |rows|
  {
    if rows != [] {
      var tail := rows[1..];
      assert DistinctIds(tail) by {
        forall i, j | 0 <= i < j < |tail| ensures tail[i].id != tail[j].id {
          assert tail[i] == rows[i + 1] && tail[j] == rows[j + 1];
        }
      }
      WithoutRowLength(tail, id);
      if rows[0].id == id {
        forall k | 0 <= k < |tail| ensures tail[k].id != id {
          assert tail[k] == rows[k + 1];
        }
      } else {
        if HasRowId(rows, id) {
          var k :| 0 <= k < |rows| && rows[k].id == id;
          assert tail[k - 1] == rows[k];
        }
        if HasRowId(tail, id) {
          var k :| 0 <= k < |tail| && tail[k].id == id;
          assert rows[k + 1] == tail[k];
        }
      }
    }
  }

  /** Removing keeps the form within one to five rows with distinct ids; with more than one
      row it drops exactly the row with the id, if there is one, and keeps every other. */
  lemma RemoveRowBounded(rows: seq<FormRow>, id: int)
    requires WellFormedRows(rows)
    ensures WellFormedRows(RemoveRow(rows, id))
    ensures |rows| > 1 ==> forall r :: r in RemoveRow(rows, id) <==> r in rows && r.id != id
    ensures |rows| == 1 ==> RemoveRow(rows, id) == rows
  {
    WithoutRowMembers(rows, id);
    WithoutRowDistinct(rows, id);
    WithoutRowLength(rows, id);
  }

  /** The one-row floor rests on distinct ids: two rows sharing an id are removed together. */
  lemma RemoveRowWithSharedIdEmptiesForm()
    ensures RemoveRow([BlankRow(7), BlankRow(7)], 7) == []
  {
    assert [BlankRow(7), BlankRow(7)][1..] == [BlankRow(7)];
  }

  /** Editing changes only the named field, and only on the rows with the id; ids, and so the
      form's shape, are kept. */
  lemma UpdateRowChangesOneField(rows: seq<FormRow>, id: int, update: FieldUpdate)
    ensures |UpdateRow(rows, id, update)| == |rows|
    ensures WellFormedRows(rows) ==> WellFormedRows(UpdateRow(rows, id, update))
    ensures forall i :: 0 <= i < |rows| && rows[i].id != id ==> UpdateRow(rows, id, update)[i] == rows[i]
    ensures forall i :: 0 <= i < |rows| && rows[i].id == id ==>
      var r := UpdateRow(rows, id, update)[i];
      r.id == id &&
      (if update.SetUrl? then r.url == update.url else r.url == rows[i].url) &&
      (if update.SetCode? then r.code == update.code else r.code == rows[i].code) &&
      (if update.SetValidity? then r.validity == Typed(update.value) else r.validity == rows[i].validity)
  {
  }

  // ---------------------------------------------------------------- batch creation

  /** `urls.filter(u => u.url.trim())`. */
  function NonBlank(rows: seq<FormRow>): (r: seq<FormRow>)
    ensures |r| <= |rows|
  {
    if rows == [] then []
    else (if Trim(rows[0].url) != "" then [rows[0]] else []) + NonBlank(rows[1..])
  }

  /** `validUrls.filter(u => u.code).map(u => u.code)`. */
  function CustomCodes(rows: seq<FormRow>): seq<string> {
    if rows == [] then []
    else (if rows[0].code != "" then [rows[0].code] else []) + CustomCodes(rows[1..])
  }

  /** `codes.indexOf(x)`. */
  function IndexOf(codes: seq<string>, x: string): (r: int)
    ensures -1 <= r < |codes|
    ensures r == -1 <==> x !in codes
    ensures r >= 0 ==> codes[r] == x && forall j :: 0 <= j < r ==> codes[j] != x
  {
    if codes == [] then -1
    else if codes[0] == x then 0
    else
      var k := IndexOf(codes[1..], x);
      if k == -1 then -1 else k + 1
  }

  function DuplicatesFrom(codes: seq<string>, i: nat): seq<string>
    requires i <= |codes|
    decreases |codes| - i
  {
    if i == |codes| then []
    else (if IndexOf(codes, codes[i]) != i then [codes[i]] else []) + DuplicatesFrom(codes, i + 1)
  }

  /** `codes.filter((code, index) => codes.indexOf(code) !== index)`: every occurrence after
      the first, in order. */
  function Duplicates(codes: seq<string>): seq<string> {
    DuplicatesFrom(codes, 0)
  }

  /** `c` occurs at two positions of `codes`. */
  predicate Repeated(codes: seq<string>, c: string) {
    exists i, j :: 0 <= i < j < |codes| && codes[i] == c && codes[j] == c
  }

  lemma {:induction false} DuplicatesFromMembers(codes: seq<string>, i: nat)
    requires i <= |codes|
    ensures forall c :: c in DuplicatesFrom(codes, i) <==>
      exists j, k :: 0 <= j < k < |codes| && i <= k && codes[j] == c && codes[k] == c
    decreases |codes| - i
  {
    if i < |codes| {
      DuplicatesFromMembers(codes, i + 1);
      var x := codes[i];
      var here := if IndexOf(codes, x) != i then [x] else [];
      assert DuplicatesFrom(codes, i) == here + DuplicatesFrom(codes, i + 1);
      forall c | c in DuplicatesFrom(codes, i)
        ensures exists j, k :: 0 <= j < k < |codes| && i <= k && codes[j] == c && codes[k] == c
      {
        if c in here {
          var j := IndexOf(codes, x);
          assert 0 <= j < i && codes[j] == c && codes[i] == c;
        }
      }
      forall c | exists j, k :: 0 <= j < k < |codes| && i <= k && codes[j] == c && codes[k] == c
        ensures c in DuplicatesFrom(codes, i)
      {
        var j, k :| 0 <= j < k < |codes| && i <= k && codes[j] == c && codes[k] == c;
        if k == i {
          assert IndexOf(codes, x) <= j < i;
          assert c in here;
        }
      }
    }
  }

  /** One step of the duplicate filter, counted for one code. */
  lemma DuplicatesFromStep(codes: seq<string>, i: nat, c: string)
    requires i < |codes|
    ensures multiset(DuplicatesFrom(codes, i))[c] ==
      multiset(DuplicatesFrom(codes, i + 1))[c] + (if codes[i] == c && IndexOf(codes, c) != i then 1 else 0)
  {
    var x := codes[i];
    var here := if IndexOf(codes, x) != i then [x] else [];
    var rest := DuplicatesFrom(codes, i + 1);
    assert DuplicatesFrom(codes, i) == here + rest;
    assert multiset(here + rest) == multiset(here) + multiset(rest);
  }

  /** One step of a suffix, counted for one code. */
  lemma SuffixCountStep(codes: seq<string>, i: nat, c: string)
    requires i < |codes|
    ensures multiset(codes[i..])[c] == multiset(codes[i + 1..])[c] + (if codes[i] == c then 1 else 0)
  {
    assert codes[i..] == [codes[i]] + codes[i + 1..];
    assert multiset(codes[i..]) == multiset([codes[i]]) + multiset(codes[i + 1..]);
  }

  /** From position `i` on, the duplicate list holds each code as often as it occurs in
      `codes[i..]`, less its first occurrence in `codes` when that lies at `i` or beyond. */
  lemma {:induction false} DuplicatesFromCounts(codes: seq<string>, i: nat, c: string)
    requires i <= |codes|
    ensures multiset(DuplicatesFrom(codes, i))[c] ==
      multiset(codes[i..])[c] - (if IndexOf(codes, c) >= i then 1 else 0)
    decreases |codes| - i
  {
    if i == |codes| {
      assert codes[i..] == [];
    } else {
      DuplicatesFromCounts(codes, i + 1, c);
      DuplicatesFromStep(codes, i, c);
      SuffixCountStep(codes, i, c);
      if codes[i] == c {
        assert IndexOf(codes, c) != -1 && IndexOf(codes, c) <= i;
      }
    }
  }

  /** The duplicate list names exactly the codes that occur twice; it is empty exactly when
      the codes are pairwise distinct. */
  lemma DuplicatesAreRepeats(codes: seq<string>)
    ensures forall c :: c in Duplicates(codes) <==> Repeated(codes, c)
    ensures Duplicates(codes) == [] <==> forall i, j :: 0 <= i < j < |codes| ==> codes[i] != codes[j]
    ensures forall c :: c in codes ==> multiset(Duplicates(codes))[c] == multiset(codes)[c] - 1
  {
    DuplicatesFromMembers(codes, 0);
    forall c | c in codes
      ensures multiset(Duplicates(codes))[c] == multiset(codes)[c] - 1
    {
      DuplicatesFromCounts(codes, 0, c);
      assert codes[0..] == codes;
    }
    forall i, j | 0 <= i < j < |codes| && codes[i] == codes[j]
      ensures codes[i] in Duplicates(codes)
    {
      assert Repeated(codes, codes[i]);
    }
    if Duplicates(codes) != [] {
      assert Duplicates(codes)[0] in Duplicates(codes);
      assert Repeated(codes, Duplicates(codes)[0]);
    }
  }

  /** `Math.random().toString(36).substring(2, 8)`, given the text before `substring`. */
  function GenerateCode(randomText: string): (code: string)
    ensures |code| <= 6
    ensures |randomText| >= 8 ==> code == randomText[2..8]
  {
    var n := |randomText|;
    randomText[Min(2, n)..Min(8, n)]
  }

  /** `u.code || generateCode()`. */
  function ChosenCode(row: FormRow, randomText: string): string {
    if row.code != "" then row.code else GenerateCode(randomText)
  }

  /** `u.validity || 30`: only a falsy value (the number 0, or an empty input) falls back to
      thirty minutes; the text "0" is truthy, and a negative count passes through. */
  function EffectiveMinutes(v: Validity): int {
    match v
    case Minutes(n) => if n == 0 then DefaultMinutes else n
    case Typed(None) => DefaultMinutes
    case Typed(Some(n)) => n
  }

  /** The record built for one row. Its expiry is `new Date(now + minutes * 60000)`, which
      is the Invalid Date once the sum is beyond the range of a time value. */
  function NewRecord(row: FormRow, code: string, id: int, now: int): LinkRecord {
    LinkRecord(id, row.url, code, ShortUrlPrefix + code, now,
               MakeDate(now + EffectiveMinutes(row.validity) * MillisPerMinute), 0, [])
  }

  /** The code row `k` ends up with collides with a stored one. */
  predicate Collides(rows: seq<FormRow>, existing: seq<LinkRecord>, draw: nat -> string, k: nat)
    requires k < |rows|
  {
    HasCode(existing, ChosenCode(rows[k], draw(k)))
  }

  /** The `map` over the rows from position `i` on, which throws at the first row whose code
      is already stored. Only the stored records are consulted, not codes minted earlier in
      the same batch. */
  function Mint(rows: seq<FormRow>, existing: seq<LinkRecord>, draw: nat -> string,
                mintId: nat -> int, now: int, i: nat): (r: Result<seq<LinkRecord>, string>)
    requires i <= |rows|
    decreases |rows| - i
    ensures r.Ok? ==> |r.value| == |rows| - i
  {
    if i == |rows| then Ok([])
    else
      var code := ChosenCode(rows[i], draw(i));
      if HasCode(existing, code) then Err(code)
      else match Mint(rows, existing, draw, mintId, now, i + 1)
        case Err(c) => Err(c)
        case Ok(rest) => Ok([NewRecord(rows[i], code, mintId(i), now)] + rest)
  }

  /** The batch goes through exactly when no row's code is already stored. */
  lemma {:induction false} MintSucceedsIffNoCollision(rows: seq<FormRow>, existing: seq<LinkRecord>,
      draw: nat -> string, mintId: nat -> int, now: int, i: nat)
    requires i <= |rows|
    decreases |rows| - i
    ensures Mint(rows, existing, draw, mintId, now, i).Ok? <==>
      forall k :: i <= k < |rows| ==> !Collides(rows, existing, draw, k)
  {
    if i < |rows| {
      MintSucceedsIffNoCollision(rows, existing, draw, mintId, now, i + 1);
      assert Collides(rows, existing, draw, i) <==> HasCode(existing, ChosenCode(rows[i], draw(i)));
    }
  }

  /** A minted record stands for its row, in row order. */
  lemma {:induction false} MintRecords(rows: seq<FormRow>, existing: seq<LinkRecord>,
      draw: nat -> string, mintId: nat -> int, now: int, i: nat)
    requires i <= |rows|
    requires Mint(rows, existing, draw, mintId, now, i).Ok?
    decreases |rows| - i
    ensures var rs := Mint(rows, existing, draw, mintId, now, i).value;
      forall k :: 0 <= k < |rs| ==>
        rs[k] == NewRecord(rows[i + k], ChosenCode(rows[i + k], draw(i + k)), mintId(i + k), now)
  {
    if i < |rows| {
      var code := ChosenCode(rows[i], draw(i));
      assert !HasCode(existing, code);
      assert Mint(rows, existing, draw, mintId, now, i + 1).Ok?;
      MintRecords(rows, existing, draw, mintId, now, i + 1);
      var rest := Mint(rows, existing, draw, mintId, now, i + 1).value;
      var rs := Mint(rows, existing, draw, mintId, now, i).value;
      assert rs == [NewRecord(rows[i], code, mintId(i), now)] + rest;
      forall k | 0 <= k < |rs|
        ensures rs[k] == NewRecord(rows[i + k], ChosenCode(rows[i + k], draw(i + k)), mintId(i + k), now)
      {
        if k > 0 {
          assert rs[k] == rest[k - 1];
        }
      }
    }
  }

  /** An aborted batch names the code of the first row that collides. */
  lemma {:induction false} MintFailsAtFirstCollision(rows: seq<FormRow>, existing: seq<LinkRecord>,
      draw: nat -> string, mintId: nat -> int, now: int, i: nat)
    requires i <= |rows|
    requires Mint(rows, existing, draw, mintId, now, i).Err?
    decreases |rows| - i
    ensures exists k :: (i <= k < |rows| &&
      Mint(rows, existing, draw, mintId, now, i).error == ChosenCode(rows[k], draw(k)) &&
      Collides(rows, existing, draw, k) &&
      (forall j :: i <= j < k ==> !Collides(rows, existing, draw, j)))
  {
    if !Collides(rows, existing, draw, i) {
      MintFailsAtFirstCollision(rows, existing, draw, mintId, now, i + 1);
      var k :| i + 1 <= k < |rows| &&
        Mint(rows, existing, draw, mintId, now, i + 1).error == ChosenCode(rows[k], draw(k)) &&
        Collides(rows, existing, draw, k) &&
        (forall j :: i + 1 <= j < k ==> !Collides(rows, existing, draw, j));
      assert forall j :: i <= j < k ==> !Collides(rows, existing, draw, j);
    }
  }

  /** The page's `message` state. */
  datatype Message =
    | Cleared
    | NoUrl
    | InvalidUrls
    | DuplicateCodes(codes: seq<string>)
    | CodeExists(code: string)
    | Created(count: nat)
    | NotFound
    | UrlExpired

  /** The text the page shows for each message. */
  function MessageText(m: Message): string {
    match m
    case Cleared => ""
    case NoUrl => "Please enter at least one URL"
    case InvalidUrls => "Please enter valid URLs (include http:// or https://)"
    case DuplicateCodes(codes) => "Duplicate codes: " + Join(codes, ", ")
    case CodeExists(code) => "Code \"" + code + "\" already exists"
    case Created(n) => "Created " + DecimalString(n) + " short link" + (if n > 1 then "s" else "") + "!"
    case NotFound => "URL not found"
    case UrlExpired => "URL expired"
  }

  datatype Creation = Rejected(message: Message) | Accepted(records: seq<LinkRecord>)

  /** What `shortenUrls()` decides for a form and a stored list. */
  function Shorten(rows: seq<FormRow>, existing: seq<LinkRecord>, isValidUrl: string -> bool,
                   draw: nat -> string, mintId: nat -> int, now: int): Creation
  {
    var valid := NonBlank(rows);
    if |valid| == 0 then Rejected(NoUrl)
    else if exists k :: 0 <= k < |valid| && !isValidUrl(valid[k].url) then Rejected(InvalidUrls)
    else CheckCodes(valid, existing, draw, mintId, now)
  }

  /** The checks on codes, made once every kept URL parses: repeated custom codes first,
      then the codes already stored. */
  function CheckCodes(valid: seq<FormRow>, existing: seq<LinkRecord>, draw: nat -> string,
                      mintId: nat -> int, now: int): Creation
  {
    var duplicates := Duplicates(CustomCodes(valid));
    if |duplicates| > 0 then Rejected(DuplicateCodes(duplicates))
    else match Mint(valid, existing, draw, mintId, now, 0)
      case Err(code) => Rejected(CodeExists(code))
      case Ok(records) => Accepted(records)
  }

  // ---------------------------------------------------------------- facts about the filters

  lemma {:induction false} NonBlankAppend(a: seq<FormRow>, b: seq<FormRow>)
    ensures NonBlank(a + b) == NonBlank(a) + NonBlank(b)
  {
    if a != [] {
      NonBlankAppend(a[1..], b);
      assert (a + b)[1..] == a[1..] + b;
      assert (a + b)[0] == a[0];
      var head := if Trim(a[0].url) != "" then [a[0]] else [];
      assert NonBlank(a + b) == head + NonBlank(a[1..] + b);
      assert NonBlank(a) == head + NonBlank(a[1..]);
      assert head + (NonBlank(a[1..]) + NonBlank(b)) == (head + NonBlank(a[1..])) + NonBlank(b);
    } else {
      assert a + b == b;
    }
  }

  lemma {:induction false} CustomCodesAppend(a: seq<FormRow>, b: seq<FormRow>)
    ensures CustomCodes(a + b) == CustomCodes(a) + CustomCodes(b)
  {
    if a != [] {
      CustomCodesAppend(a[1..], b);
      assert (a + b)[1..] == a[1..] + b;
    } else {
      assert a + b == b;
    }
  }

  /** The rows kept by the blank filter are exactly those whose URL has a non-space character. */
  lemma {:induction false} NonBlankMembers(rows: seq<FormRow>)
    ensures forall r :: r in NonBlank(rows) <==> r in rows && !IsBlank(r.url)
  {
    if rows != [] {
      NonBlankMembers(rows[1..]);
      TrimEmptyIffBlank(rows[0].url);
      assert rows == [rows[0]] + rows[1..];
    }
  }

  /** `pos` lists, in increasing order, positions of `rows` holding the rows of `kept`. */
  predicate PositionsOf(rows: seq<FormRow>, kept: seq<FormRow>, pos: seq<nat>) {
    && |pos| == |kept|
    && (forall k :: 0 <= k < |pos| ==> pos[k] < |rows| && rows[pos[k]] == kept[k])
    && (forall k, l :: 0 <= k < l < |pos| ==> pos[k] < pos[l])
  }

  /** Positions found in `rows[1..]`, moved one place on, are positions in `rows`. */
  lemma ShiftPositions(rows: seq<FormRow>, kept: seq<FormRow>, rest: seq<nat>) returns (pos: seq<nat>)
    requires |rows| > 0 && PositionsOf(rows[1..], kept, rest)
    ensures PositionsOf(rows, kept, pos)
    ensures forall k :: 0 <= k < |pos| ==> pos[k] > 0
  {
    pos := seq(|rest|, k requires 0 <= k < |rest| => rest[k] + 1);
    forall k | 0 <= k < |pos|
      ensures pos[k] < |rows| && rows[pos[k]] == kept[k]
    {
      assert rows[pos[k]] == rows[1..][rest[k]];
    }
  }

  /** Position 0 goes in front of positions that all lie beyond it. */
  lemma ConsPosition(rows: seq<FormRow>, kept: seq<FormRow>, shifted: seq<nat>) returns (pos: seq<nat>)
    requires |rows| > 0 && PositionsOf(rows, kept, shifted)
    requires forall k :: 0 <= k < |shifted| ==> shifted[k] > 0
    ensures PositionsOf(rows, [rows[0]] + kept, pos)
  {
    pos := [0] + shifted;
  }

  /** Where each kept row sits in the form: strictly increasing positions. */
  lemma {:induction false} NonBlankPositions(rows: seq<FormRow>) returns (pos: seq<nat>)
    ensures |pos| == |NonBlank(rows)|
    ensures forall k :: 0 <= k < |pos| ==> pos[k] < |rows| && rows[pos[k]] == NonBlank(rows)[k]
    ensures forall k, l :: 0 <= k < l < |pos| ==> pos[k] < pos[l]
  {
    if rows == [] {
      pos := [];
    } else {
      var rest := NonBlankPositions(rows[1..]);
      var shifted := ShiftPositions(rows, NonBlank(rows[1..]), rest);
      if Trim(rows[0].url) != "" {
        pos := ConsPosition(rows, NonBlank(rows[1..]), shifted);
      } else {
        pos := shifted;
      }
      assert PositionsOf(rows, NonBlank(rows), pos);
    }
  }

  /** Where each custom code comes from: a row with that (non-empty) code, at strictly
      increasing positions. */
  lemma {:induction false} CustomCodesPositions(rows: seq<FormRow>) returns (pos: seq<nat>)
    ensures |pos| == |CustomCodes(rows)|
    ensures forall k :: 0 <= k < |pos| ==>
      pos[k] < |rows| && rows[pos[k]].code == CustomCodes(rows)[k] && rows[pos[k]].code != ""
    ensures forall k, l :: 0 <= k < l < |pos| ==> pos[k] < pos[l]
  {
    if rows == [] {
      pos := [];
    } else {
      var rest := CustomCodesPositions(rows[1..]);
      var shifted := seq(|rest|, k requires 0 <= k < |rest| => rest[k] + 1);
      pos := if rows[0].code != "" then [0] + shifted else shifted;
    }
  }

  /** No custom code is given on two non-blank rows. */
  predicate CustomCodesDistinct(rows: seq<FormRow>) {
    forall i, j :: 0 <= i < j < |rows| && !IsBlank(rows[i].url) && !IsBlank(rows[j].url) && rows[i].code != "" ==>
      rows[i].code != rows[j].code
  }

  /** The custom codes of a batch are the non-empty codes of its rows. */
  lemma {:induction false} CustomCodesMembers(rows: seq<FormRow>)
    ensures forall c :: c in CustomCodes(rows) <==> c != "" && exists r :: r in rows && r.code == c
  {
    if rows != [] {
      CustomCodesMembers(rows[1..]);
      assert rows == [rows[0]] + rows[1..];
    }
  }

  /** The custom codes of the non-blank rows, split into the first row's share and the rest's. */
  lemma CodesOfFirstRow(rows: seq<FormRow>)
    requires rows != []
    ensures var head := if Trim(rows[0].url) != "" && rows[0].code != "" then [rows[0].code] else [];
      CustomCodes(NonBlank(rows)) == head + CustomCodes(NonBlank(rows[1..]))
  {
    var head := if Trim(rows[0].url) != "" then [rows[0]] else [];
    assert NonBlank(rows) == head + NonBlank(rows[1..]);
    CustomCodesAppend(head, NonBlank(rows[1..]));
  }

  /** A code repeated in a list stays repeated when codes are put in front of it. */
  lemma RepeatedAfterPrefix(head: seq<string>, rest: seq<string>, c: string)
    requires Repeated(rest, c)
    ensures Repeated(head + rest, c)
  {
    var p, q :| 0 <= p < q < |rest| && rest[p] == c && rest[q] == c;
    assert (head + rest)[|head| + p] == c && (head + rest)[|head| + q] == c;
  }

  /** A code put in front of a list that already holds it is repeated. */
  lemma RepeatedWithHead(rest: seq<string>, c: string)
    requires c in rest
    ensures Repeated([c] + rest, c)
  {
    var q :| 0 <= q < |rest| && rest[q] == c;
    assert ([c] + rest)[0] == c && ([c] + rest)[1 + q] == c;
  }

  /** A code given on two non-blank rows is repeated among the custom codes of the batch. */
  lemma {:induction false} RepeatedRowsRepeatCode(rows: seq<FormRow>, i: int, j: int)
    requires 0 <= i < j < |rows|
    requires !IsBlank(rows[i].url) && !IsBlank(rows[j].url)
    requires rows[i].code != "" && rows[i].code == rows[j].code
    ensures Repeated(CustomCodes(NonBlank(rows)), rows[i].code)
  {
    var c := rows[i].code;
    var tail := rows[1..];
    var rest := CustomCodes(NonBlank(tail));
    CodesOfFirstRow(rows);
    assert tail[j - 1] == rows[j];
    if i > 0 {
      assert tail[i - 1] == rows[i];
      RepeatedRowsRepeatCode(tail, i - 1, j - 1);
      var head := if Trim(rows[0].url) != "" && rows[0].code != "" then [rows[0].code] else [];
      RepeatedAfterPrefix(head, rest, c);
    } else {
      TrimEmptyIffBlank(rows[0].url);
      NonBlankMembers(tail);
      CustomCodesMembers(NonBlank(tail));
      assert rows[j] in NonBlank(tail);
      RepeatedWithHead(rest, c);
    }
  }

  /** A repeated custom code comes from two rows carrying it. */
  lemma RepeatedCustomCodeRows(rows: seq<FormRow>, c: string) returns (a: nat, b: nat)
    requires Repeated(CustomCodes(rows), c)
    ensures a < b < |rows| && rows[a].code == c && rows[b].code == c && c != ""
  {
    var p, q :| 0 <= p < q < |CustomCodes(rows)| && CustomCodes(rows)[p] == c && CustomCodes(rows)[q] == c;
    var codeAt := CustomCodesPositions(rows);
    a, b := codeAt[p], codeAt[q];
  }

  /** Two kept rows are two non-blank rows of the form, in the same order. */
  lemma KeptRowsInForm(rows: seq<FormRow>, a: nat, b: nat) returns (i: nat, j: nat)
    requires a < b < |NonBlank(rows)|
    ensures i < j < |rows| && rows[i] == NonBlank(rows)[a] && rows[j] == NonBlank(rows)[b]
    ensures !IsBlank(rows[i].url) && !IsBlank(rows[j].url)
  {
    var rowAt := NonBlankPositions(rows);
    i, j := rowAt[a], rowAt[b];
    NonBlankMembers(rows);
    assert NonBlank(rows)[a] in NonBlank(rows) && NonBlank(rows)[b] in NonBlank(rows);
  }

  /** A code repeated among the custom codes of the batch is given on two non-blank rows. */
  lemma RepeatedCodeHasTwoRows(rows: seq<FormRow>, c: string) returns (i: nat, j: nat)
    requires Repeated(CustomCodes(NonBlank(rows)), c)
    ensures c != ""
    ensures i < j < |rows| && !IsBlank(rows[i].url) && !IsBlank(rows[j].url)
    ensures rows[i].code == c && rows[j].code == c
  {
    var a, b := RepeatedCustomCodeRows(NonBlank(rows), c);
    i, j := KeptRowsInForm(rows, a, b);
  }

  /** The duplicate check passes exactly when no custom code is given on two non-blank rows. */
  lemma NoDuplicatesIffDistinct(rows: seq<FormRow>)
    ensures Duplicates(CustomCodes(NonBlank(rows))) == [] <==> CustomCodesDistinct(rows)
  {
    var codes := CustomCodes(NonBlank(rows));
    DuplicatesAreRepeats(codes);
    if Duplicates(codes) != [] {
      var c := Duplicates(codes)[0];
      assert c in Duplicates(codes);
      var i, j := RepeatedCodeHasTwoRows(rows, c);
    }
    forall i, j | 0 <= i < j < |rows| && !IsBlank(rows[i].url) && !IsBlank(rows[j].url) &&
        rows[i].code != "" && rows[i].code == rows[j].code
      ensures rows[i].code in Duplicates(codes)
    {
      RepeatedRowsRepeatCode(rows, i, j);
    }
  }

  // ---------------------------------------------------------------- the batch, as promised

  /** Only a batch whose rows are all blank is refused with "Please enter at least one URL". */
  lemma BlankBatchRejected(rows: seq<FormRow>, existing: seq<LinkRecord>, isValidUrl: string -> bool,
                           draw: nat -> string, mintId: nat -> int, now: int)
    ensures Shorten(rows, existing, isValidUrl, draw, mintId, now) == Rejected(NoUrl) <==>
      forall i :: 0 <= i < |rows| ==> IsBlank(rows[i].url)
  {
    NonBlankMembers(rows);
    var valid := NonBlank(rows);
    if valid != [] {
      assert valid[0] in valid;
    }
    if exists i :: 0 <= i < |rows| && !IsBlank(rows[i].url) {
      var i :| 0 <= i < |rows| && !IsBlank(rows[i].url);
      assert rows[i] in valid;
    }
  }

  /** A batch is refused for an invalid URL exactly when some non-blank row fails to parse. */
  lemma InvalidUrlRejected(rows: seq<FormRow>, existing: seq<LinkRecord>, isValidUrl: string -> bool,
                           draw: nat -> string, mintId: nat -> int, now: int)
    ensures Shorten(rows, existing, isValidUrl, draw, mintId, now) == Rejected(InvalidUrls) <==>
      exists i :: 0 <= i < |rows| && !IsBlank(rows[i].url) && !isValidUrl(rows[i].url)
  {
    NonBlankMembers(rows);
    var valid := NonBlank(rows);
    if exists i :: 0 <= i < |rows| && !IsBlank(rows[i].url) && !isValidUrl(rows[i].url) {
      var i :| 0 <= i < |rows| && !IsBlank(rows[i].url) && !isValidUrl(rows[i].url);
      assert rows[i] in valid;
      var k :| 0 <= k < |valid| && valid[k] == rows[i];
    }
    if exists k :: 0 <= k < |valid| && !isValidUrl(valid[k].url) {
      var k :| 0 <= k < |valid| && !isValidUrl(valid[k].url);
      assert valid[k] in valid;
      var i :| 0 <= i < |rows| && rows[i] == valid[k];
    }
  }

  /** A custom code given on two non-blank rows of an otherwise valid batch refuses the batch,
      and the message lists that code; every code the message lists is given on two
      non-blank rows, and each custom code is listed once per occurrence after its first. */
  lemma DuplicateCodeRejected(rows: seq<FormRow>, existing: seq<LinkRecord>, isValidUrl: string -> bool,
                              draw: nat -> string, mintId: nat -> int, now: int, i: int, j: int)
    requires 0 <= i < j < |rows|
    requires !IsBlank(rows[i].url) && !IsBlank(rows[j].url)
    requires rows[i].code != "" && rows[i].code == rows[j].code
    requires forall k :: 0 <= k < |rows| && !IsBlank(rows[k].url) ==> isValidUrl(rows[k].url)
    ensures var c := Shorten(rows, existing, isValidUrl, draw, mintId, now);
      c.Rejected? && c.message.DuplicateCodes? && rows[i].code in c.message.codes &&
      (forall d :: d in c.message.codes ==> (d != "" &&
        exists p, q :: 0 <= p < q < |rows| && !IsBlank(rows[p].url) && !IsBlank(rows[q].url) &&
          rows[p].code == d && rows[q].code == d)) &&
      forall d :: d in CustomCodes(NonBlank(rows)) ==>
        multiset(c.message.codes)[d] == multiset(CustomCodes(NonBlank(rows)))[d] - 1
  {
    var valid := NonBlank(rows);
    var codes := CustomCodes(valid);
    ShortenPastUrlChecks(rows, existing, isValidUrl, draw, mintId, now, i);
    RepeatedRowsRepeatCode(rows, i, j);
    DuplicatesAreRepeats(codes);
    assert Duplicates(codes) != [];
    assert CheckCodes(valid, existing, draw, mintId, now) == Rejected(DuplicateCodes(Duplicates(codes)));
    ListedCodesHaveTwoRows(rows);
  }

  /** A form with a non-blank row `i` whose non-blank URLs all parse gets past the URL checks. */
  lemma ShortenPastUrlChecks(rows: seq<FormRow>, existing: seq<LinkRecord>, isValidUrl: string -> bool,
                             draw: nat -> string, mintId: nat -> int, now: int, i: int)
    requires 0 <= i < |rows| && !IsBlank(rows[i].url)
    requires forall k :: 0 <= k < |rows| && !IsBlank(rows[k].url) ==> isValidUrl(rows[k].url)
    ensures Shorten(rows, existing, isValidUrl, draw, mintId, now) ==
      CheckCodes(NonBlank(rows), existing, draw, mintId, now)
  {
    var valid := NonBlank(rows);
    NonBlankMembers(rows);
    assert rows[i] in valid;
    forall k | 0 <= k < |valid| ensures isValidUrl(valid[k].url) {
      assert valid[k] in valid;
    }
  }

  /** Every code the duplicate list names is given on two non-blank rows. */
  lemma ListedCodesHaveTwoRows(rows: seq<FormRow>)
    ensures forall d :: d in Duplicates(CustomCodes(NonBlank(rows))) ==> (d != "" &&
      exists p, q :: 0 <= p < q < |rows| && !IsBlank(rows[p].url) && !IsBlank(rows[q].url) &&
        rows[p].code == d && rows[q].code == d)
  {
    var codes := CustomCodes(NonBlank(rows));
    DuplicatesAreRepeats(codes);
    forall d | d in Duplicates(codes)
      ensures d != "" &&
        exists p, q :: 0 <= p < q < |rows| && !IsBlank(rows[p].url) && !IsBlank(rows[q].url) &&
          rows[p].code == d && rows[q].code == d
    {
      var p, q := RepeatedCodeHasTwoRows(rows, d);
      assert 0 <= p < q < |rows| && !IsBlank(rows[p].url) && !IsBlank(rows[q].url) &&
        rows[p].code == d && rows[q].code == d;
    }
  }

  /** A batch that passes the earlier checks but in which some row's code, custom or
      generated, is already stored is aborted as a whole, naming the first such code. */
  lemma ExistingCodeAbortsBatch(rows: seq<FormRow>, existing: seq<LinkRecord>, isValidUrl: string -> bool,
                                draw: nat -> string, mintId: nat -> int, now: int, k: nat)
    requires forall i :: 0 <= i < |rows| && !IsBlank(rows[i].url) ==> isValidUrl(rows[i].url)
    requires CustomCodesDistinct(rows)
    requires k < |NonBlank(rows)| && Collides(NonBlank(rows), existing, draw, k)
    ensures var c := Shorten(rows, existing, isValidUrl, draw, mintId, now);
      c.Rejected? && c.message.CodeExists? && HasCode(existing, c.message.code) &&
      exists f :: 0 <= f <= k && c.message.code == ChosenCode(NonBlank(rows)[f], draw(f)) &&
        forall g :: 0 <= g < f ==> !Collides(NonBlank(rows), existing, draw, g)
  {
    var valid := NonBlank(rows);
    var rowAt := NonBlankPositions(rows);
    var i := rowAt[k];
    NonBlankMembers(rows);
    assert valid[k] in valid;
    ShortenPastUrlChecks(rows, existing, isValidUrl, draw, mintId, now, i);
    NoDuplicatesIffDistinct(rows);
    MintSucceedsIffNoCollision(valid, existing, draw, mintId, now, 0);
    assert Mint(valid, existing, draw, mintId, now, 0).Err?;
    MintFailsAtFirstCollision(valid, existing, draw, mintId, now, 0);
  }

  /** A batch is accepted exactly when it has a non-blank row, every non-blank URL parses,
      no custom code is given twice and no row's code is already stored. */
  lemma AcceptedExactlyWhen(rows: seq<FormRow>, existing: seq<LinkRecord>, isValidUrl: string -> bool,
                            draw: nat -> string, mintId: nat -> int, now: int)
    ensures Shorten(rows, existing, isValidUrl, draw, mintId, now).Accepted? <==>
      (exists i :: 0 <= i < |rows| && !IsBlank(rows[i].url)) &&
      (forall i :: 0 <= i < |rows| && !IsBlank(rows[i].url) ==> isValidUrl(rows[i].url)) &&
      CustomCodesDistinct(rows) &&
      (forall k :: 0 <= k < |NonBlank(rows)| ==> !Collides(NonBlank(rows), existing, draw, k))
  {
    BlankBatchRejected(rows, existing, isValidUrl, draw, mintId, now);
    InvalidUrlRejected(rows, existing, isValidUrl, draw, mintId, now);
    NoDuplicatesIffDistinct(rows);
    MintSucceedsIffNoCollision(NonBlank(rows), existing, draw, mintId, now, 0);
  }

  /** An accepted batch makes one fresh record per non-blank row, in row order: the row's URL,
      its custom code or a generated one that is not stored yet, no clicks, an empty history,
      and as expiry the date `(validity || 30)` minutes after `now`, which is the Invalid
      Date when that instant lies beyond 8.64e15 ms either way. */
  lemma AcceptedBatch(rows: seq<FormRow>, existing: seq<LinkRecord>, isValidUrl: string -> bool,
                      draw: nat -> string, mintId: nat -> int, now: int)
    requires Shorten(rows, existing, isValidUrl, draw, mintId, now).Accepted?
    ensures var rs := Shorten(rows, existing, isValidUrl, draw, mintId, now).records;
      var valid := NonBlank(rows);
      |rs| == |valid| > 0 &&
      forall k :: 0 <= k < |rs| ==>
        rs[k].id == mintId(k) && rs[k].originalUrl == valid[k].url &&
        (valid[k].code != "" ==> rs[k].shortCode == valid[k].code) &&
        (valid[k].code == "" ==> rs[k].shortCode == GenerateCode(draw(k))) &&
        !HasCode(existing, rs[k].shortCode) &&
        rs[k].createdAt == now &&
        rs[k].expiryDate == MakeDate(now + EffectiveMinutes(valid[k].validity) * MillisPerMinute) &&
        rs[k].clicks == 0 && rs[k].clickHistory == [] && ClicksMatchHistory(rs[k])
  {
    var valid := NonBlank(rows);
    AcceptedRecordsAreMinted(rows, existing, isValidUrl, draw, mintId, now);
    var rs := Mint(valid, existing, draw, mintId, now, 0).value;
    MintRecords(valid, existing, draw, mintId, now, 0);
    MintSucceedsIffNoCollision(valid, existing, draw, mintId, now, 0);
    forall k | 0 <= k < |rs|
      ensures rs[k] == NewRecord(valid[k], ChosenCode(valid[k], draw(k)), mintId(k), now)
      ensures !HasCode(existing, rs[k].shortCode)
    {
      assert !Collides(valid, existing, draw, k);
    }
  }

  /** An accepted batch has a non-blank row, and its records are what minting made of the
      non-blank rows. */
  lemma AcceptedRecordsAreMinted(rows: seq<FormRow>, existing: seq<LinkRecord>, isValidUrl: string -> bool,
                                 draw: nat -> string, mintId: nat -> int, now: int)
    requires Shorten(rows, existing, isValidUrl, draw, mintId, now).Accepted?
    ensures |NonBlank(rows)| > 0 && Mint(NonBlank(rows), existing, draw, mintId, now, 0).Ok?
    ensures Shorten(rows, existing, isValidUrl, draw, mintId, now).records ==
      Mint(NonBlank(rows), existing, draw, mintId, now, 0).value
  {
  }

  function AnyUrlParses(url: string): bool { true }
  function FixedRandomText(k: nat): string { "0.abcdefgh" }
  function IdByPosition(k: nat): int { k }

  /** A form with a custom code "abcdef" and, below it, a row left to a generated code. */
  const SampleBatch := [FormRow(1, "https://a.example", "abcdef", Minutes(30)),
                        FormRow(2, "https://b.example", "", Minutes(30))]

  /** Both rows of the sample are kept, and its one custom code is not repeated. */
  lemma SampleBatchPassesChecks()
    ensures NonBlank(SampleBatch) == SampleBatch
    ensures Duplicates(CustomCodes(SampleBatch)) == []
  {
    var rows := SampleBatch;
    assert !IsBlank(rows[0].url) by { assert !IsWhiteSpace(rows[0].url[0]); }
    assert !IsBlank(rows[1].url) by { assert !IsWhiteSpace(rows[1].url[0]); }
    TrimEmptyIffBlank(rows[0].url);
    TrimEmptyIffBlank(rows[1].url);
    assert rows[1..] == [rows[1]] && rows[1..][1..] == [];
    assert NonBlank(rows[1..]) == [rows[1]];
    assert CustomCodes(rows[1..]) == [];
    assert CustomCodes(rows) == ["abcdef"];
    assert DuplicatesFrom(["abcdef"], 1) == [];
  }

  /** When every draw yields "0.abcdefgh", the generated code of the second row is "abcdef"
      too, and with nothing stored both rows are minted. */
  lemma SampleBatchMints()
    ensures var m := Mint(SampleBatch, [], FixedRandomText, IdByPosition, 0, 0);
      m.Ok? && |m.value| == 2 && m.value[0].shortCode == "abcdef" && m.value[1].shortCode == "abcdef"
  {
    var rows := SampleBatch;
    assert GenerateCode(FixedRandomText(1)) == "abcdef";
    assert ChosenCode(rows[1], FixedRandomText(1)) == "abcdef";
    assert !HasCode([], "abcdef");
    MintSucceedsIffNoCollision(rows, [], FixedRandomText, IdByPosition, 0, 0);
    MintRecords(rows, [], FixedRandomText, IdByPosition, 0, 0);
  }

  /** Codes are not unique across a batch: a custom code and a generated one may coincide,
      because only the stored records are consulted. */
  lemma SameBatchMayRepeatCode()
    ensures var c := Shorten(SampleBatch, [], AnyUrlParses, FixedRandomText, IdByPosition, 0);
      c.Accepted? && |c.records| == 2 && c.records[0].shortCode == c.records[1].shortCode
  {
    SampleBatchPassesChecks();
    SampleBatchMints();
    var m := Mint(SampleBatch, [], FixedRandomText, IdByPosition, 0, 0);
    assert Shorten(SampleBatch, [], AnyUrlParses, FixedRandomText, IdByPosition, 0) == Accepted(m.value);
  }

  /** `(validity || 30)` falls back only on a falsy value: the typed text "0" makes a link that
      expires at its creation, and a negative count one that expires before it, unless the
      count is so large that the date is invalid. */
  lemma ValidityFallsBackOnlyWhenFalsy(row: FormRow, code: string, id: int, now: int)
    ensures row.validity == Minutes(0) || row.validity == Typed(None) ==>
      NewRecord(row, code, id, now).expiryDate == MakeDate(now + 30 * 60000)
    ensures row.validity == Typed(Some(0)) ==>
      NewRecord(row, code, id, now).expiryDate == MakeDate(NewRecord(row, code, id, now).createdAt)
    ensures row.validity.Typed? && row.validity.value.Some? && row.validity.value.value < 0 ==>
      var r := NewRecord(row, code, id, now);
      var t := now + row.validity.value.value * 60000;
      if -MaxTimeValue <= t <= MaxTimeValue then r.expiryDate.At? && r.expiryDate.ms < r.createdAt
      else r.expiryDate == InvalidDate
  {
  }

  /** A typed validity of 200,000,000,000 minutes, either way round, takes a link created
      at 1,760,000,000,000 ms past the range of a time value, and so does any count from
      143,970,666,667 minutes up: its expiry is the Invalid Date, against which no clock reading
      compares, so the link never expires. */
  lemma HugeValidityMakesInvalidDate()
    ensures NewRecord(FormRow(1, "https://a.example", "", Typed(Some(200000000000))),
                      "abcdef", 1, 1760000000000).expiryDate == InvalidDate
    ensures NewRecord(FormRow(1, "https://a.example", "", Typed(Some(-200000000000))),
                      "abcdef", 1, 1760000000000).expiryDate == InvalidDate
    ensures NewRecord(FormRow(1, "https://a.example", "", Typed(Some(143970666666))),
                      "abcdef", 1, 1760000000000).expiryDate.At?
    ensures NewRecord(FormRow(1, "https://a.example", "", Typed(Some(143970666667))),
                      "abcdef", 1, 1760000000000).expiryDate == InvalidDate
  {
  }

  // ---------------------------------------------------------------- the page

  /** The link-creation page, over the shared link list. */
  class URLShortener {
    const store: Store
    var urls: seq<FormRow>
    var message: Message

    constructor (store: Store)
      ensures this.store == store && urls == InitialRows && message == Cleared
      ensures Valid()
    {
      this.store := store;
      urls := InitialRows;
      message := Cleared;
    }

    ghost predicate Valid()
      reads this
    {
      WellFormedRows(urls)
    }

    /** `addUrl()` at clock reading `now`. */
    method AddUrl(now: int)
      modifies this`urls
      ensures urls == AddRow(old(urls), now)
      ensures old(Valid()) && !HasRowId(old(urls), now) ==> Valid()
    {
      ghost var before := urls;
      if |urls| < MaxRows {
        urls := urls + [BlankRow(now)];
      }
      if WellFormedRows(before) {
        AddRowBounded(before, now);
      }
    }

    /** `removeUrl(id)`. */
    method RemoveUrl(id: int)
      modifies this`urls
      ensures urls == RemoveRow(old(urls), id)
      ensures old(Valid()) ==> Valid()
    {
      ghost var before := urls;
      if |urls| > 1 {
        urls := WithoutRow(urls, id);
      }
      if WellFormedRows(before) {
        RemoveRowBounded(before, id);
      }
    }

    /** `updateUrl(id, field, value)`. */
    method UpdateUrl(id: int, update: FieldUpdate)
      modifies this`urls
      ensures urls == UpdateRow(old(urls), id, update)
      ensures old(Valid()) ==> Valid()
    {
      UpdateRowChangesOneField(urls, id, update);
      urls := UpdateRow(urls, id, update);
    }

    /** `shortenUrls()`: the checks in order, each returning early with its message and
        nothing stored; then all records appended at once, the form reset and the count
        reported. */
    method ShortenUrls(isValidUrl: string -> bool, draw: nat -> string, mintId: nat -> int, now: int)
      modifies this, store
      ensures match Shorten(old(urls), old(store.links), isValidUrl, draw, mintId, now)
        case Rejected(m) =>
          message == m && urls == old(urls) && store.links == old(store.links)
        case Accepted(records) =>
          message == Created(|records|) && urls == InitialRows && store.links == old(store.links) + records
      ensures old(Valid()) ==> Valid()
    {
      message := Cleared;
      var valid := NonBlank(urls);
      if |valid| == 0 {
        message := NoUrl;
        return;
      }
      if exists k :: 0 <= k < |valid| && !isValidUrl(valid[k].url) {
        message := InvalidUrls;
        return;
      }
      var duplicates := Duplicates(CustomCodes(valid));
      if |duplicates| > 0 {
        message := DuplicateCodes(duplicates);
        return;
      }
      var minted := Mint(valid, store.links, draw, mintId, now, 0);
      if minted.Err? {
        message := CodeExists(minted.error);
        return;
      }
      store.links := store.links + minted.value;
      message := Created(|minted.value|);
      urls := InitialRows;
    }

    /** `testUrl(shortCode)` at time `now`; `newTab` is the address handed to `window.open`. */
    method TestUrl(shortCode: string, now: int) returns (newTab: Option<string>)
      modifies this`message, store
      ensures match Visit(old(store.links), shortCode, now, TestSource)
        case NoSuchCode =>
          message == NotFound && store.links == old(store.links) && newTab == None
        case PastExpiry =>
          message == UrlExpired && store.links == old(store.links) && newTab == None
        case Clicked(target, links) =>
          message == old(message) && store.links == links && newTab == Some(target.originalUrl)
    {
      var found := FindCode(store.links, shortCode);
      if found.None? {
        message := NotFound;
        return None;
      }
      var urlData := store.links[found.value];
      if IsPast(urlData.expiryDate, now) {
        message := UrlExpired;
        return None;
      }
      store.links := RecordClick(store.links, shortCode, ClickEvent(now, TestSource));
      newTab := Some(urlData.originalUrl);
    }
  }

  const TestSource: string := "Test"
}
