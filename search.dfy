/** The in-page keyword search: a fixed list of eight records, a substring
    matcher over them, and the results container it fills. */
module Search {
  import opened Text

  datatype Record = Record(title: string, section: string, content: string)

  // Each record's keywords are kept as the words of the keyword string;
  // `Join` puts the single spaces back, so the content is the string as
  // the page writes it.
  const NetarhatWords := ["queen", "chotanagpur", "sunrise", "sunset", "hilltop"]
  const PatratuWords := ["valley", "dam", "boating", "landscapes"]
  const BetlaWords := ["wildlife", "tigers", "elephants", "safari", "palamu"]
  const HundruWords := ["waterfall", "98", "meter", "subarnarekha", "river", "swimming"]
  const DeogharWords := ["sacred", "baidyanath", "temple", "jyotirlinga"]
  const HotelsWords := ["stay", "accommodation", "lodging", "rooms"]
  const TransportWords := ["train", "bus", "taxi", "car", "reach", "travel"]
  const CultureWords := ["festivals", "sarhul", "karma", "tribal", "art", "cuisine"]

  const Netarhat := Record("Netarhat", "destinations", Join(NetarhatWords))
  const Patratu := Record("Patratu", "destinations", Join(PatratuWords))
  const Betla := Record("Betla National Park", "destinations", Join(BetlaWords))
  const Hundru := Record("Hundru Falls", "destinations", Join(HundruWords))
  const Deoghar := Record("Deoghar", "destinations", Join(DeogharWords))
  const Hotels := Record("Hotels", "accommodations", Join(HotelsWords))
  const Transport := Record("Transport", "travel-info", Join(TransportWords))
  const Culture := Record("Culture", "culture", Join(CultureWords))

  /** The searchable content, in the order results are listed. */
  const Corpus: seq<Record> := [Netarhat, Patratu, Betla, Hundru, Deoghar, Hotels, Transport, Culture]

  /** The `filter` callback: a record matches when its lower-cased title or
      its keyword string contains the query, that is, when the query occurs
      at some offset of one of them. The keywords are compared as they are. */
  predicate Matches(r: Record, q: string): (b: bool)
    ensures b <==> (exists k :: OccursAt(ToLower(r.title), q, k)) || (exists k :: OccursAt(r.content, q, k))
  {
    Contains(ToLower(r.title), q) || Contains(r.content, q)
  }

  /** `filter`: the records that match, in their original order. */
  function Filter(records: seq<Record>, q: string): (r: seq<Record>)
    ensures |r| <= |records|
    ensures forall x :: x in r <==> x in records && Matches(x, q)
  {
    if records == [] then []
    else (if Matches(records[0], q) then [records[0]] else []) + Filter(records[1..], q)
  }

  /** The positions at or after `from` whose record matches, ascending. */
  ghost function MatchingIndices(records: seq<Record>, q: string, from: nat): (idx: seq<nat>)
    ensures forall k :: 0 <= k < |idx| ==> from <= idx[k] < |records| && Matches(records[idx[k]], q)
    ensures forall k, l :: 0 <= k < l < |idx| ==> idx[k] < idx[l]
    ensures forall i :: from <= i < |records| && Matches(records[i], q) ==> i in idx
    decreases |records| - from
  {
    if from >= |records| then []
    else (if Matches(records[from], q) then [from] else []) + MatchingIndices(records, q, from + 1)
  }

  /** `results` lists, one for one, the records at positions `idx`. */
  ghost predicate PicksAt(results: seq<Record>, records: seq<Record>, idx: seq<nat>) {
    |results| == |idx| && forall k :: 0 <= k < |idx| ==> idx[k] < |records| && results[k] == records[idx[k]]
  }

  lemma PicksAtConcat(r1: seq<Record>, r2: seq<Record>, records: seq<Record>, i1: seq<nat>, i2: seq<nat>)
    requires PicksAt(r1, records, i1) && PicksAt(r2, records, i2)
    ensures PicksAt(r1 + r2, records, i1 + i2)
  {
    forall k | 0 <= k < |i1 + i2| ensures (i1 + i2)[k] < |records| && (r1 + r2)[k] == records[(i1 + i2)[k]] {
      if k >= |i1| {
        assert (r1 + r2)[k] == r2[k - |r1|];
        assert (i1 + i2)[k] == i2[k - |i1|];
      }
    }
  }

  /** The filter keeps exactly one entry per matching position, in corpus
      order: its k-th result is the record at the k-th matching position. */
  lemma {:induction false} FilterInOrder(records: seq<Record>, q: string, from: nat)
    requires from <= |records|
    ensures PicksAt(Filter(records[from..], q), records, MatchingIndices(records, q, from))
    decreases |records| - from
  {
    if from < |records| {
      FilterInOrder(records, q, from + 1);
      assert records[from..][1..] == records[from + 1..];
      var head := if Matches(records[from], q) then [records[from]] else [];
      var headIdx: seq<nat> := if Matches(records[from], q) then [from] else [];
      assert Filter(records[from..], q) == head + Filter(records[from + 1..], q);
      assert PicksAt(head, records, headIdx);
      PicksAtConcat(head, Filter(records[from + 1..], q), records, headIdx, MatchingIndices(records, q, from + 1));
    }
  }

  /** The empty query would select every record: `includes("")` holds for
      any text, which is why the input handler never searches for it. */
  lemma {:induction false} FilterEmptyQuery(records: seq<Record>)
    ensures Filter(records, []) == records
  {
    if records != [] {
      ContainsEmpty(records[0].content);
      FilterEmptyQuery(records[1..]);
    }
  }

  /** When only the record at `k` matches, it is the whole result. */
  lemma {:induction false} FilterSingle(records: seq<Record>, q: string, k: nat)
    requires k < |records| && Matches(records[k], q)
    requires forall i :: 0 <= i < |records| && i != k ==> !Matches(records[i], q)
    ensures Filter(records, q) == [records[k]]
  {
    if k == 0 {
      FilterNone(records[1..], q);
    } else {
      FilterSingle(records[1..], q, k - 1);
    }
  }

  /** When nothing matches, the result is empty. */
  lemma {:induction false} FilterNone(records: seq<Record>, q: string)
    requires forall i :: 0 <= i < |records| ==> !Matches(records[i], q)
    ensures Filter(records, q) == []
  {
    if records != [] {
      FilterNone(records[1..], q);
    }
  }

  /** One rendered result: the title shown and the `data-section` it carries. */
  datatype Entry = Entry(title: string, section: string)

  /** What the results container holds: emptied (`innerHTML = ''`), the
      "No results found" message, or one entry per result. */
  datatype Listing = Cleared | NoResults | Entries(items: seq<Entry>)

  /** `performSearch`'s rendering step. */
  function Render(results: seq<Record>): (l: Listing)
    ensures l.NoResults? <==> results == []
    ensures l.Entries? <==> results != []
    ensures l.Entries? ==> (|l.items| == |results| &&
      forall i :: 0 <= i < |results| ==> l.items[i] == Entry(results[i].title, results[i].section))
  {
    if |results| > 0 then Entries(seq(|results|, i requires 0 <= i < |results| => Entry(results[i].title, results[i].section)))
    else NoResults
  }

  /** `performSearch` over a list of records (the page passes `Corpus`):
      filter and render. "No results found" appears exactly when no record
      matches; otherwise every entry points at the section of a matching
      record. */
  function PerformSearch(records: seq<Record>, q: string): (l: Listing)
    ensures l.NoResults? <==> forall r :: r in records ==> !Matches(r, q)
    ensures l.Entries? ==> forall e :: e in l.items ==>
      exists r :: r in records && Matches(r, q) && e == Entry(r.title, r.section)
    ensures l.Entries? ==> forall r :: r in records && Matches(r, q) ==> Entry(r.title, r.section) in l.items
    ensures l.Entries? ==> ListsInOrder(l.items, records, MatchingIndices(records, q, 0))
    ensures !l.Cleared?
  {
    RenderDescribesMatches(records, q);
    Render(Filter(records, q))
  }

  /** `items` holds, one for one, the title and section of the records at
      positions `idx`. */
  ghost predicate ListsInOrder(items: seq<Entry>, records: seq<Record>, idx: seq<nat>) {
    |items| == |idx| &&
    forall k :: 0 <= k < |idx| ==> idx[k] < |records| && items[k] == Entry(records[idx[k]].title, records[idx[k]].section)
  }

  /** What the rendered search shows, in terms of the records that match. */
  lemma RenderDescribesMatches(records: seq<Record>, q: string)
    ensures var l := Render(Filter(records, q));
      && (l.NoResults? <==> forall r :: r in records ==> !Matches(r, q))
      && (l.Entries? ==> forall e :: e in l.items ==>
        exists r :: r in records && Matches(r, q) && e == Entry(r.title, r.section))
      && (l.Entries? ==> forall r :: r in records && Matches(r, q) ==> Entry(r.title, r.section) in l.items)
      && (l.Entries? ==> ListsInOrder(l.items, records, MatchingIndices(records, q, 0)))
  {
    var results := Filter(records, q);
    if results != [] {
      assert results[0] in results;
    }
    EntriesAreMatches(records, q);
    EntriesInOrder(records, q);
  }

  /** Each entry is a matching record's, and each matching record has one. */
  lemma EntriesAreMatches(records: seq<Record>, q: string)
    ensures var l := Render(Filter(records, q));
      && (l.Entries? ==> forall e :: e in l.items ==>
        exists r :: r in records && Matches(r, q) && e == Entry(r.title, r.section))
      && (l.Entries? ==> forall r :: r in records && Matches(r, q) ==> Entry(r.title, r.section) in l.items)
  {
    var results := Filter(records, q);
    var l := Render(results);
    if l.Entries? {
      forall e | e in l.items ensures exists r :: r in records && Matches(r, q) && e == Entry(r.title, r.section) {
        var k :| 0 <= k < |l.items| && l.items[k] == e;
        assert results[k] in results;
      }
      forall r | r in records && Matches(r, q) ensures Entry(r.title, r.section) in l.items {
        var k :| 0 <= k < |results| && results[k] == r;
        assert l.items[k] == Entry(r.title, r.section);
      }
    }
  }

  /** The entries follow the matching positions in corpus order. */
  lemma EntriesInOrder(records: seq<Record>, q: string)
    ensures var l := Render(Filter(records, q));
      l.Entries? ==> ListsInOrder(l.items, records, MatchingIndices(records, q, 0))
  {
    FilterInOrder(records, q, 0);
    assert records[0..] == records;
  }

  /** How the `input` listener's callback is invoked. `debounce` calls the
      wrapped function as `func(...args)`, with no receiver, so in a classic
      script `this` is the global object, not the search input. */
  datatype Receiver = SearchInput(value: string) | GlobalObject

  /** The receiver the debounced callback actually sees. */
  const DebouncedReceiver: Receiver := GlobalObject

  datatype Failure = TypeError

  datatype Outcome = Query(q: string) | Threw(error: Failure)

  /** The callback's first line as written: `this.value.toLowerCase().trim()`.
      On the global object `value` is undefined, and calling `toLowerCase`
      on undefined throws. */
  function QueryAsWritten(receiver: Receiver): (o: Outcome)
    ensures receiver.GlobalObject? ==> o == Threw(TypeError)
    ensures receiver.SearchInput? ==> o == Query(Normalize(receiver.value))
  {
    match receiver
    case SearchInput(v) => Query(Normalize(v))
    case GlobalObject => Threw(TypeError)
  }

  /** As written, every debounced input event throws before any search runs,
      whatever the user typed. */
  lemma InputHandlerThrows(typed: string)
    ensures QueryAsWritten(DebouncedReceiver) == Threw(TypeError)
    ensures QueryAsWritten(DebouncedReceiver) != Query(Normalize(typed))
  {
  }

  /** The search input and its results container. */
  class SearchBox {
    var value: string
    var listing: Listing
    var hidden: bool

    /** An emptied container never shows: `hidden` is set whenever the
        container is cleared. */
    ghost predicate Valid()
      reads this
    {
      listing.Cleared? ==> hidden
    }

    constructor ()
      ensures Valid()
      ensures value == "" && listing == Cleared && hidden
    {
      value := "";
      listing := Cleared;
      hidden := true;
    }

    /** The user edits the input. */
    method Type(text: string)
      modifies this
      ensures value == text && listing == old(listing) && hidden == old(hidden)
    {
      value := text;
    }

    /** The debounced `input` callback, reading the query from the input
        itself: blank queries clear and hide the container, any other query
        shows the outcome of the search, "No results found" included. */
    method OnInput()
      requires Valid()
      modifies this
      ensures Valid()
      ensures value == old(value)
      ensures Normalize(value) == [] ==> listing == Cleared && hidden
      ensures Normalize(value) != [] ==> listing == PerformSearch(Corpus, Normalize(value)) && !hidden
    {
      var query := Normalize(value);
      if |query| > 0 {
        listing := PerformSearch(Corpus, query);
        hidden := false;
      } else {
        listing := Cleared;
        hidden := true;
      }
    }

    /** The part of a result click that touches the search box: the
        container is hidden (its entries stay in place) and the input is
        emptied. */
    method Dismiss()
      requires Valid()
      modifies this
      ensures Valid()
      ensures hidden && value == "" && listing == old(listing)
    {
      hidden := true;
      value := "";
    }
  }
}
