/** Worked searches over the eight records: "waterfall" finds only Hundru
    Falls, "temple" only Deoghar, and "zoo", found nowhere, gives the
    "No results found" state. */
module SearchExamples {
  import opened Text
  import opened Search

  /** The lower-cased title cannot contain a query with a letter that the
      title lacks in both cases. */
  lemma TitleLacks(r: Record, q: string, c: char)
    requires 'a' <= c <= 'z' && c in q
    requires c !in r.title && (c as int - 32) as char !in r.title
    ensures !Contains(ToLower(r.title), q)
  {
    LowerAbsent(r.title, c);
    AbsentChar(ToLower(r.title), q, c);
  }

  /** Joined words cannot contain a one-word query when each word lacks a
      letter of the query: `letters[i]` is the one the `i`-th word lacks. */
  lemma WordsMiss(words: seq<string>, q: string, letters: string)
    requires q != [] && ' ' !in q
    requires |letters| == |words|
    requires forall i :: 0 <= i < |words| ==> letters[i] in q && letters[i] !in words[i]
    ensures !Contains(Join(words), q)
  {
    forall i | 0 <= i < |words| ensures !Contains(words[i], q) {
      AbsentChar(words[i], q, letters[i]);
    }
    JoinOneWord(words, q);
  }

  /** Filtering eight records of which only the fourth matches. */
  lemma OnlyFourth(a: Record, b: Record, c: Record, d: Record, e: Record, f: Record, g: Record, h: Record, q: string)
    requires !Matches(a, q) && !Matches(b, q) && !Matches(c, q) && Matches(d, q)
    requires !Matches(e, q) && !Matches(f, q) && !Matches(g, q) && !Matches(h, q)
    ensures Filter([a, b, c, d, e, f, g, h], q) == [d]
  {
    FilterSingle([a, b, c, d, e, f, g, h], q, 3);
  }

  /** Filtering eight records of which only the fifth matches. */
  lemma OnlyFifth(a: Record, b: Record, c: Record, d: Record, e: Record, f: Record, g: Record, h: Record, q: string)
    requires !Matches(a, q) && !Matches(b, q) && !Matches(c, q) && !Matches(d, q)
    requires Matches(e, q) && !Matches(f, q) && !Matches(g, q) && !Matches(h, q)
    ensures Filter([a, b, c, d, e, f, g, h], q) == [e]
  {
    FilterSingle([a, b, c, d, e, f, g, h], q, 4);
  }

  /** Filtering eight records none of which matches. */
  lemma NoneOfEight(a: Record, b: Record, c: Record, d: Record, e: Record, f: Record, g: Record, h: Record, q: string)
    requires !Matches(a, q) && !Matches(b, q) && !Matches(c, q) && !Matches(d, q)
    requires !Matches(e, q) && !Matches(f, q) && !Matches(g, q) && !Matches(h, q)
    ensures Filter([a, b, c, d, e, f, g, h], q) == []
  {
    FilterNone([a, b, c, d, e, f, g, h], q);
  }

  /** The rendering of a single result. */
  lemma SingleEntry(records: seq<Record>, q: string, r: Record)
    requires Filter(records, q) == [r]
    ensures PerformSearch(records, q) == Entries([Entry(r.title, r.section)])
  {
  }

  // Letters missing from the titles, in both cases.
  lemma NetarhatTitleLacksW() ensures 'w' !in Netarhat.title && ('w' as int - 32) as char !in Netarhat.title {}
  lemma NetarhatTitleLacksM() ensures 'm' !in Netarhat.title && ('m' as int - 32) as char !in Netarhat.title {}
  lemma NetarhatTitleLacksZ() ensures 'z' !in Netarhat.title && ('z' as int - 32) as char !in Netarhat.title {}
  lemma PatratuTitleLacksW() ensures 'w' !in Patratu.title && ('w' as int - 32) as char !in Patratu.title {}
  lemma PatratuTitleLacksM() ensures 'm' !in Patratu.title && ('m' as int - 32) as char !in Patratu.title {}
  lemma PatratuTitleLacksZ() ensures 'z' !in Patratu.title && ('z' as int - 32) as char !in Patratu.title {}
  lemma BetlaTitleLacksW() ensures 'w' !in Betla.title {}
  lemma BetlaTitleLacksUpperW() ensures ('w' as int - 32) as char !in Betla.title {}
  lemma BetlaTitleLacksM() ensures 'm' !in Betla.title {}
  lemma BetlaTitleLacksUpperM() ensures ('m' as int - 32) as char !in Betla.title {}
  lemma BetlaTitleLacksZ() ensures 'z' !in Betla.title {}
  lemma BetlaTitleLacksUpperZ() ensures ('z' as int - 32) as char !in Betla.title {}
  lemma HundruTitleLacksP() ensures 'p' !in Hundru.title && ('p' as int - 32) as char !in Hundru.title {}
  lemma HundruTitleLacksZ() ensures 'z' !in Hundru.title && ('z' as int - 32) as char !in Hundru.title {}
  lemma DeogharTitleLacksW() ensures 'w' !in Deoghar.title && ('w' as int - 32) as char !in Deoghar.title {}
  lemma DeogharTitleLacksZ() ensures 'z' !in Deoghar.title && ('z' as int - 32) as char !in Deoghar.title {}
  lemma HotelsTitleLacksW() ensures 'w' !in Hotels.title && ('w' as int - 32) as char !in Hotels.title {}
  lemma HotelsTitleLacksP() ensures 'p' !in Hotels.title && ('p' as int - 32) as char !in Hotels.title {}
  lemma HotelsTitleLacksZ() ensures 'z' !in Hotels.title && ('z' as int - 32) as char !in Hotels.title {}
  lemma TransportTitleLacksW() ensures 'w' !in Transport.title && ('w' as int - 32) as char !in Transport.title {}
  lemma TransportTitleLacksM() ensures 'm' !in Transport.title && ('m' as int - 32) as char !in Transport.title {}
  lemma TransportTitleLacksZ() ensures 'z' !in Transport.title && ('z' as int - 32) as char !in Transport.title {}
  lemma CultureTitleLacksW() ensures 'w' !in Culture.title && ('w' as int - 32) as char !in Culture.title {}
  lemma CultureTitleLacksP() ensures 'p' !in Culture.title && ('p' as int - 32) as char !in Culture.title {}
  lemma CultureTitleLacksZ() ensures 'z' !in Culture.title && ('z' as int - 32) as char !in Culture.title {}

  const Waterfall := "waterfall"

  lemma NetarhatWordsNotWaterfall() ensures !Contains(Netarhat.content, Waterfall) {
    WordsMiss(NetarhatWords, Waterfall, "wwwww");
  }
  lemma NetarhatNotWaterfall() ensures !Matches(Netarhat, Waterfall) {
    NetarhatTitleLacksW();
    TitleLacks(Netarhat, Waterfall, 'w');
    NetarhatWordsNotWaterfall();
  }
  lemma PatratuWordsNotWaterfall() ensures !Contains(Patratu.content, Waterfall) {
    WordsMiss(PatratuWords, Waterfall, "wwww");
  }
  lemma PatratuNotWaterfall() ensures !Matches(Patratu, Waterfall) {
    PatratuTitleLacksW();
    TitleLacks(Patratu, Waterfall, 'w');
    PatratuWordsNotWaterfall();
  }
  lemma BetlaWordsNotWaterfall() ensures !Contains(Betla.content, Waterfall) {
    WordsMiss(BetlaWords, Waterfall, "awwww");
  }
  lemma BetlaNotWaterfall() ensures !Matches(Betla, Waterfall) {
    BetlaTitleLacksW();
    BetlaTitleLacksUpperW();
    TitleLacks(Betla, Waterfall, 'w');
    BetlaWordsNotWaterfall();
  }
  lemma HundruIsWaterfall() ensures Matches(Hundru, Waterfall) {
    JoinContainsWord(HundruWords, 0);
  }
  lemma DeogharWordsNotWaterfall() ensures !Contains(Deoghar.content, Waterfall) {
    WordsMiss(DeogharWords, Waterfall, "wwww");
  }
  lemma DeogharNotWaterfall() ensures !Matches(Deoghar, Waterfall) {
    DeogharTitleLacksW();
    TitleLacks(Deoghar, Waterfall, 'w');
    DeogharWordsNotWaterfall();
  }
  lemma HotelsWordsNotWaterfall() ensures !Contains(Hotels.content, Waterfall) {
    WordsMiss(HotelsWords, Waterfall, "wwww");
  }
  lemma HotelsNotWaterfall() ensures !Matches(Hotels, Waterfall) {
    HotelsTitleLacksW();
    TitleLacks(Hotels, Waterfall, 'w');
    HotelsWordsNotWaterfall();
  }
  lemma TransportWordsNotWaterfall() ensures !Contains(Transport.content, Waterfall) {
    WordsMiss(TransportWords, Waterfall, "wwwwww");
  }
  lemma TransportNotWaterfall() ensures !Matches(Transport, Waterfall) {
    TransportTitleLacksW();
    TitleLacks(Transport, Waterfall, 'w');
    TransportWordsNotWaterfall();
  }
  lemma CultureWordsNotWaterfall() ensures !Contains(Culture.content, Waterfall) {
    WordsMiss(CultureWords, Waterfall, "wwwwww");
  }
  lemma CultureNotWaterfall() ensures !Matches(Culture, Waterfall) {
    CultureTitleLacksW();
    TitleLacks(Culture, Waterfall, 'w');
    CultureWordsNotWaterfall();
  }

  /** Searching for "waterfall" lists Hundru Falls alone. */
  lemma WaterfallFindsHundru()
    ensures Filter(Corpus, Waterfall) == [Hundru]
    ensures PerformSearch(Corpus, Waterfall) == Entries([Entry("Hundru Falls", "destinations")])
  {
    NetarhatNotWaterfall();
    PatratuNotWaterfall();
    BetlaNotWaterfall();
    HundruIsWaterfall();
    DeogharNotWaterfall();
    HotelsNotWaterfall();
    TransportNotWaterfall();
    CultureNotWaterfall();
    OnlyFourth(Netarhat, Patratu, Betla, Hundru, Deoghar, Hotels, Transport, Culture, Waterfall);
    SingleEntry(Corpus, Waterfall, Hundru);
  }

  const Temple := "temple"

  lemma NetarhatWordsNotTemple() ensures !Contains(Netarhat.content, Temple) {
    WordsMiss(NetarhatWords, Temple, "mmmmm");
  }
  lemma NetarhatNotTemple() ensures !Matches(Netarhat, Temple) {
    NetarhatTitleLacksM();
    TitleLacks(Netarhat, Temple, 'm');
    NetarhatWordsNotTemple();
  }
  lemma PatratuWordsNotTemple() ensures !Contains(Patratu.content, Temple) {
    WordsMiss(PatratuWords, Temple, "mtmm");
  }
  lemma PatratuNotTemple() ensures !Matches(Patratu, Temple) {
    PatratuTitleLacksM();
    TitleLacks(Patratu, Temple, 'm');
    PatratuWordsNotTemple();
  }
  lemma BetlaWordsNotTemple() ensures !Contains(Betla.content, Temple) {
    WordsMiss(BetlaWords, Temple, "mmmmt");
  }
  lemma BetlaNotTemple() ensures !Matches(Betla, Temple) {
    BetlaTitleLacksM();
    BetlaTitleLacksUpperM();
    TitleLacks(Betla, Temple, 'm');
    BetlaWordsNotTemple();
  }
  lemma HundruWordsNotTemple() ensures !Contains(Hundru.content, Temple) {
    WordsMiss(HundruWords, Temple, "pppppp");
  }
  lemma HundruNotTemple() ensures !Matches(Hundru, Temple) {
    HundruTitleLacksP();
    TitleLacks(Hundru, Temple, 'p');
    HundruWordsNotTemple();
  }
  lemma DeogharIsTemple() ensures Matches(Deoghar, Temple) {
    JoinContainsWord(DeogharWords, 2);
  }
  lemma HotelsWordsNotTemple() ensures !Contains(Hotels.content, Temple) {
    WordsMiss(HotelsWords, Temple, "pppp");
  }
  lemma HotelsNotTemple() ensures !Matches(Hotels, Temple) {
    HotelsTitleLacksP();
    TitleLacks(Hotels, Temple, 'p');
    HotelsWordsNotTemple();
  }
  lemma TransportWordsNotTemple() ensures !Contains(Transport.content, Temple) {
    WordsMiss(TransportWords, Temple, "mmmmmm");
  }
  lemma TransportNotTemple() ensures !Matches(Transport, Temple) {
    TransportTitleLacksM();
    TitleLacks(Transport, Temple, 'm');
    TransportWordsNotTemple();
  }
  lemma CultureWordsNotTemple() ensures !Contains(Culture.content, Temple) {
    WordsMiss(CultureWords, Temple, "pppppp");
  }
  lemma CultureNotTemple() ensures !Matches(Culture, Temple) {
    CultureTitleLacksP();
    TitleLacks(Culture, Temple, 'p');
    CultureWordsNotTemple();
  }

  /** Searching for "temple" lists Deoghar alone. */
  lemma TempleFindsDeoghar()
    ensures Filter(Corpus, Temple) == [Deoghar]
    ensures PerformSearch(Corpus, Temple) == Entries([Entry("Deoghar", "destinations")])
  {
    NetarhatNotTemple();
    PatratuNotTemple();
    BetlaNotTemple();
    HundruNotTemple();
    DeogharIsTemple();
    HotelsNotTemple();
    TransportNotTemple();
    CultureNotTemple();
    OnlyFifth(Netarhat, Patratu, Betla, Hundru, Deoghar, Hotels, Transport, Culture, Temple);
    SingleEntry(Corpus, Temple, Deoghar);
  }

  const Zoo := "zoo"

  lemma NetarhatWordsNotZoo() ensures !Contains(Netarhat.content, Zoo) {
    WordsMiss(NetarhatWords, Zoo, "zzzzz");
  }
  lemma NetarhatNotZoo() ensures !Matches(Netarhat, Zoo) {
    NetarhatTitleLacksZ();
    TitleLacks(Netarhat, Zoo, 'z');
    NetarhatWordsNotZoo();
  }
  lemma PatratuWordsNotZoo() ensures !Contains(Patratu.content, Zoo) {
    WordsMiss(PatratuWords, Zoo, "zzzz");
  }
  lemma PatratuNotZoo() ensures !Matches(Patratu, Zoo) {
    PatratuTitleLacksZ();
    TitleLacks(Patratu, Zoo, 'z');
    PatratuWordsNotZoo();
  }
  lemma BetlaWordsNotZoo() ensures !Contains(Betla.content, Zoo) {
    WordsMiss(BetlaWords, Zoo, "zzzzz");
  }
  lemma BetlaNotZoo() ensures !Matches(Betla, Zoo) {
    BetlaTitleLacksZ();
    BetlaTitleLacksUpperZ();
    TitleLacks(Betla, Zoo, 'z');
    BetlaWordsNotZoo();
  }
  lemma HundruWordsNotZoo() ensures !Contains(Hundru.content, Zoo) {
    WordsMiss(HundruWords, Zoo, "zzzzzz");
  }
  lemma HundruNotZoo() ensures !Matches(Hundru, Zoo) {
    HundruTitleLacksZ();
    TitleLacks(Hundru, Zoo, 'z');
    HundruWordsNotZoo();
  }
  lemma DeogharWordsNotZoo() ensures !Contains(Deoghar.content, Zoo) {
    WordsMiss(DeogharWords, Zoo, "zzzz");
  }
  lemma DeogharNotZoo() ensures !Matches(Deoghar, Zoo) {
    DeogharTitleLacksZ();
    TitleLacks(Deoghar, Zoo, 'z');
    DeogharWordsNotZoo();
  }
  lemma HotelsWordsNotZoo() ensures !Contains(Hotels.content, Zoo) {
    WordsMiss(HotelsWords, Zoo, "zzzz");
  }
  lemma HotelsNotZoo() ensures !Matches(Hotels, Zoo) {
    HotelsTitleLacksZ();
    TitleLacks(Hotels, Zoo, 'z');
    HotelsWordsNotZoo();
  }
  lemma TransportWordsNotZoo() ensures !Contains(Transport.content, Zoo) {
    WordsMiss(TransportWords, Zoo, "zzzzzz");
  }
  lemma TransportNotZoo() ensures !Matches(Transport, Zoo) {
    TransportTitleLacksZ();
    TitleLacks(Transport, Zoo, 'z');
    TransportWordsNotZoo();
  }
  lemma CultureWordsNotZoo() ensures !Contains(Culture.content, Zoo) {
    WordsMiss(CultureWords, Zoo, "zzzzzz");
  }
  lemma CultureNotZoo() ensures !Matches(Culture, Zoo) {
    CultureTitleLacksZ();
    TitleLacks(Culture, Zoo, 'z');
    CultureWordsNotZoo();
  }

  /** Searching for "zoo" finds nothing and shows "No results found". */
  lemma ZooFindsNothing()
    ensures Filter(Corpus, Zoo) == []
    ensures PerformSearch(Corpus, Zoo) == NoResults
  {
    NetarhatNotZoo();
    PatratuNotZoo();
    BetlaNotZoo();
    HundruNotZoo();
    DeogharNotZoo();
    HotelsNotZoo();
    TransportNotZoo();
    CultureNotZoo();
    NoneOfEight(Netarhat, Patratu, Betla, Hundru, Deoghar, Hotels, Transport, Culture, Zoo);
  }
}
