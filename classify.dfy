/** `groupByCustomCategories`: the fixed, ordered buckets and the rules
    that put a giveaway into them. */
module Classify {
  import opened Text
  import opened Seqs
  import opened Giveaways

  datatype Category = EpicGames | Steam | PlayStation5 | Xbox | PC | Mobile | DLCs | Other

  /** The bucket's key in the result, used as the note's file name. */
  function Name(c: Category): string {
    match c
    case EpicGames => "Epic Games"
    case Steam => "Steam"
    case PlayStation5 => "PlayStation 5"
    case Xbox => "Xbox"
    case PC => "PC"
    case Mobile => "Mobile"
    case DLCs => "DLCs"
    case Other => "Other"
  }

  /** The buckets in the order the result object declares its keys. */
  const Categories: seq<Category> := [EpicGames, Steam, PlayStation5, Xbox, PC, Mobile, DLCs, Other]

  /** Where bucket `c` comes in the key order. */
  function Position(c: Category): (j: nat)
    ensures j < |Categories| && Categories[j] == c
  {
    match c
    case EpicGames => 0
    case Steam => 1
    case PlayStation5 => 2
    case Xbox => 3
    case PC => 4
    case Mobile => 5
    case DLCs => 6
    case Other => 7
  }

  /** The six buckets decided by the platform list. */
  predicate IsPlatformCategory(c: Category) {
    c != DLCs && c != Other
  }

  /** The eight keys are all the categories, each once, with distinct
      names (so distinct note paths). */
  lemma CategoriesAreAllDistinct()
    ensures |Categories| == 8
    ensures forall c: Category :: c in Categories
    ensures forall i, j :: 0 <= i < j < |Categories| ==> Name(Categories[i]) != Name(Categories[j])
  {
    forall c: Category ensures c in Categories {
      match c
      case EpicGames => assert c == Categories[0];
      case Steam => assert c == Categories[1];
      case PlayStation5 => assert c == Categories[2];
      case Xbox => assert c == Categories[3];
      case PC => assert c == Categories[4];
      case Mobile => assert c == Categories[5];
      case DLCs => assert c == Categories[6];
      case Other => assert c == Categories[7];
    }
  }

  /** Distinct buckets have distinct names. */
  lemma NamesDiffer(c: Category, d: Category)
    requires c != d
    ensures Name(c) != Name(d)
  {
  }

  /** `.map((p) => p.trim())`. */
  function TrimAll(parts: seq<string>): seq<string> {
    seq(|parts|, i requires 0 <= i < |parts| => Trim(parts[i]))
  }

  /** Trimming pieces that hold no `ch` gives tokens that hold no `ch`. */
  lemma TrimAllKeepsOut(parts: seq<string>, ch: char)
    requires forall i :: 0 <= i < |parts| ==> ch !in parts[i]
    ensures forall i :: 0 <= i < |parts| ==> ch !in TrimAll(parts)[i]
  {
    forall i | 0 <= i < |parts| ensures ch !in TrimAll(parts)[i] {
      TrimKeepsOut(parts[i], ch);
    }
  }

  /** `token` is `piece` with the white space around it cut. */
  ghost predicate TrimmedFrom(piece: string, token: string) {
    exists a :: StripsTo(piece, a, token)
  }

  lemma TrimAllStrips(parts: seq<string>)
    ensures forall i :: 0 <= i < |parts| ==> TrimmedFrom(parts[i], TrimAll(parts)[i])
  {
    forall i | 0 <= i < |parts| ensures TrimmedFrom(parts[i], TrimAll(parts)[i]) {
      assert TrimAll(parts)[i] == Trim(parts[i]);
    }
  }

  /** `g.platforms.split(",").map((p) => p.trim())`: one token per
      comma-separated piece, that piece with the white space around it cut,
      so no token holds a comma or starts or ends with white space. */
  function PlatformTokens(g: Giveaway): (r: seq<string>)
    ensures |r| == |Split(g.platforms, ',')| >= 1
    ensures forall i :: 0 <= i < |r| ==> TrimmedFrom(Split(g.platforms, ',')[i], r[i])
    ensures forall i :: 0 <= i < |r| ==> ',' !in r[i]
    ensures forall i :: 0 <= i < |r| ==> r[i] == [] || (!IsSpace(r[i][0]) && !IsSpace(r[i][|r[i]| - 1]))
  {
    TrimAllKeepsOut(Split(g.platforms, ','), ',');
    TrimAllStrips(Split(g.platforms, ','));
    TrimAll(Split(g.platforms, ','))
  }

  /** `g.type?.toLowerCase() === "dlc"`. */
  predicate IsDlc(g: Giveaway) {
    g.giveawayType.Some? && ToLower(g.giveawayType.value) == "dlc"
  }

  /** `platforms.some(p => p.toLowerCase() === word)`, scanning left to
      right. */
  predicate SomeTokenIs(tokens: seq<string>, word: string) {
    tokens != [] && (ToLower(tokens[0]) == word || SomeTokenIs(tokens[1..], word))
  }

  /** `platforms.some(p => p.toLowerCase().includes(word))`. */
  predicate SomeTokenIncludes(tokens: seq<string>, word: string) {
    tokens != [] && (Contains(ToLower(tokens[0]), word) || SomeTokenIncludes(tokens[1..], word))
  }

  /** The scan succeeds exactly when some token, lowered, is `word`. */
  lemma {:induction false} SomeTokenIsAt(tokens: seq<string>, word: string)
    ensures SomeTokenIs(tokens, word) <==> exists i :: 0 <= i < |tokens| && ToLower(tokens[i]) == word
  {
    if tokens != [] {
      SomeTokenIsAt(tokens[1..], word);
      if exists i :: 0 <= i < |tokens| && ToLower(tokens[i]) == word {
        var i :| 0 <= i < |tokens| && ToLower(tokens[i]) == word;
        if i > 0 {
          assert tokens[1..][i - 1] == tokens[i];
        }
      }
    }
  }

  /** The scan succeeds exactly when some token, lowered, contains `word`. */
  lemma {:induction false} SomeTokenIncludesAt(tokens: seq<string>, word: string)
    ensures SomeTokenIncludes(tokens, word) <==> exists i :: 0 <= i < |tokens| && Contains(ToLower(tokens[i]), word)
  {
    if tokens != [] {
      SomeTokenIncludesAt(tokens[1..], word);
      if exists i :: 0 <= i < |tokens| && Contains(ToLower(tokens[i]), word) {
        var i :| 0 <= i < |tokens| && Contains(ToLower(tokens[i]), word);
        if i > 0 {
          assert tokens[1..][i - 1] == tokens[i];
        }
      }
    }
  }

  /** Whether one token passes the platform test of bucket `c`. */
  predicate TokenMatches(c: Category, token: string) {
    match c
    case EpicGames => ToLower(token) == "epic games store"
    case Steam => ToLower(token) == "steam"
    case PlayStation5 => ToLower(token) == "playstation 5"
    case Xbox => Contains(ToLower(token), "xbox")
    case PC => ToLower(token) == "pc"
    case Mobile => ToLower(token) == "android" || ToLower(token) == "ios"
    case DLCs => false
    case Other => false
  }

  /** The platform rule of each bucket, a `some` scan over the tokens;
      DLCs and Other have none. */
  function MatchesRule(c: Category, tokens: seq<string>): (r: bool)
    ensures r <==> exists i :: 0 <= i < |tokens| && TokenMatches(c, tokens[i])
  {
    match c
    case EpicGames => SomeTokenIsAt(tokens, "epic games store"); SomeTokenIs(tokens, "epic games store")
    case Steam => SomeTokenIsAt(tokens, "steam"); SomeTokenIs(tokens, "steam")
    case PlayStation5 => SomeTokenIsAt(tokens, "playstation 5"); SomeTokenIs(tokens, "playstation 5")
    case Xbox => SomeTokenIncludesAt(tokens, "xbox"); SomeTokenIncludes(tokens, "xbox")
    case PC => SomeTokenIsAt(tokens, "pc"); SomeTokenIs(tokens, "pc")
    case Mobile =>
      SomeTokenIsAt(tokens, "android"); SomeTokenIsAt(tokens, "ios");
      SomeTokenIs(tokens, "android") || SomeTokenIs(tokens, "ios")
    case DLCs => false
    case Other => false
  }

  predicate AnyRuleMatches(tokens: seq<string>) {
    MatchesRule(EpicGames, tokens) || MatchesRule(Steam, tokens) || MatchesRule(PlayStation5, tokens)
    || MatchesRule(Xbox, tokens) || MatchesRule(PC, tokens) || MatchesRule(Mobile, tokens)
  }

  /** Whether `g` belongs in bucket `c`: a DLC only in DLCs; otherwise each
      platform bucket whose rule matches, and Other when none does. */
  function Belongs(g: Giveaway, c: Category): (r: bool)
    ensures IsDlc(g) ==> (r <==> c == DLCs)
    ensures r && c == DLCs ==> IsDlc(g)
    ensures !IsDlc(g) && c != Other ==>
      (r <==> exists i :: 0 <= i < |PlatformTokens(g)| && TokenMatches(c, PlatformTokens(g)[i]))
  {
    if IsDlc(g) then c == DLCs
    else if c == Other then !AnyRuleMatches(PlatformTokens(g))
    else MatchesRule(c, PlatformTokens(g))
  }

  /** The contents of bucket `c` for the input `gs`. */
  function Bucket(gs: seq<Giveaway>, c: Category): seq<Giveaway> {
    Filter(gs, (g: Giveaway) => Belongs(g, c))
  }

  lemma InBucket(gs: seq<Giveaway>, c: Category, g: Giveaway)
    ensures g in Bucket(gs, c) <==> g in gs && Belongs(g, c)
  {
    FilterMembers(gs, (g: Giveaway) => Belongs(g, c), g);
  }

  lemma BucketAppend(gs: seq<Giveaway>, g: Giveaway, c: Category)
    ensures Bucket(gs + [g], c) == Bucket(gs, c) + (if Belongs(g, c) then [g] else [])
  {
    FilterAppend(gs, g, (g: Giveaway) => Belongs(g, c));
  }

  /** What one record adds to bucket `c`. */
  function Pushed(g: Giveaway, c: Category): seq<Giveaway> {
    if Belongs(g, c) then [g] else []
  }

  /** The result object of `groupByCustomCategories`: one array per key. */
  datatype Groups = Groups(
    epicGames: seq<Giveaway>, steam: seq<Giveaway>, playStation5: seq<Giveaway>, xbox: seq<Giveaway>,
    pc: seq<Giveaway>, mobile: seq<Giveaway>, dlcs: seq<Giveaway>, other: seq<Giveaway>)

  /** `groups[Name(c)]`. */
  function Get(groups: Groups, c: Category): seq<Giveaway> {
    match c
    case EpicGames => groups.epicGames
    case Steam => groups.steam
    case PlayStation5 => groups.playStation5
    case Xbox => groups.xbox
    case PC => groups.pc
    case Mobile => groups.mobile
    case DLCs => groups.dlcs
    case Other => groups.other
  }

  /** The object the function starts from: every key bound to `[]`. */
  const NoGroups := Groups([], [], [], [], [], [], [], [])

  /** `next` is `prev` with `g` pushed onto exactly the buckets it belongs
      to, spelled out bucket by bucket. */
  predicate PushedOnto(prev: Groups, next: Groups, g: Giveaway) {
    next.epicGames == prev.epicGames + Pushed(g, EpicGames)
    && next.steam == prev.steam + Pushed(g, Steam)
    && next.playStation5 == prev.playStation5 + Pushed(g, PlayStation5)
    && next.xbox == prev.xbox + Pushed(g, Xbox)
    && next.pc == prev.pc + Pushed(g, PC)
    && next.mobile == prev.mobile + Pushed(g, Mobile)
    && next.dlcs == prev.dlcs + Pushed(g, DLCs)
    && next.other == prev.other + Pushed(g, Other)
  }

  /** The groups the classifier computes for `gs`, as a value. */
  function Grouping(gs: seq<Giveaway>): (groups: Groups)
    ensures forall c :: Get(groups, c) == Bucket(gs, c)
  {
    var groups := Groups(Bucket(gs, EpicGames), Bucket(gs, Steam), Bucket(gs, PlayStation5), Bucket(gs, Xbox),
                         Bucket(gs, PC), Bucket(gs, Mobile), Bucket(gs, DLCs), Bucket(gs, Other));
    GetBuckets(gs, groups);
    groups
  }

  lemma GetBuckets(gs: seq<Giveaway>, groups: Groups)
    requires groups == Groups(Bucket(gs, EpicGames), Bucket(gs, Steam), Bucket(gs, PlayStation5), Bucket(gs, Xbox),
                              Bucket(gs, PC), Bucket(gs, Mobile), Bucket(gs, DLCs), Bucket(gs, Other))
    ensures forall c :: Get(groups, c) == Bucket(gs, c)
  {
    forall c: Category
      ensures Get(groups, c) == Bucket(gs, c)
    {
      match c
      case EpicGames =>
      case Steam =>
      case PlayStation5 =>
      case Xbox =>
      case PC =>
      case Mobile =>
      case DLCs =>
      case Other =>
    }
  }

  lemma GroupsEqual(a: Groups, b: Groups)
    requires forall c :: Get(a, c) == Get(b, c)
    ensures a == b
  {
    assert Get(a, EpicGames) == Get(b, EpicGames) && Get(a, Steam) == Get(b, Steam);
    assert Get(a, PlayStation5) == Get(b, PlayStation5) && Get(a, Xbox) == Get(b, Xbox);
    assert Get(a, PC) == Get(b, PC) && Get(a, Mobile) == Get(b, Mobile);
    assert Get(a, DLCs) == Get(b, DLCs) && Get(a, Other) == Get(b, Other);
  }

  /** One more pass turns the grouping of a prefix into the grouping of
      the longer prefix. */
  lemma ExtendGrouping(gs: seq<Giveaway>, g: Giveaway, prev: Groups, next: Groups)
    requires prev == Grouping(gs) && PushedOnto(prev, next, g)
    ensures next == Grouping(gs + [g])
  {
    ExtendBuckets(gs, g, prev, next);
    GroupsEqual(next, Grouping(gs + [g]));
  }

  lemma ExtendBuckets(gs: seq<Giveaway>, g: Giveaway, prev: Groups, next: Groups)
    requires forall c: Category :: Get(prev, c) == Bucket(gs, c)
    requires PushedOnto(prev, next, g)
    ensures forall c: Category :: Get(next, c) == Bucket(gs + [g], c)
  {
    forall c: Category ensures Get(next, c) == Bucket(gs + [g], c) {
      PushedOntoGet(prev, next, g, c);
      BucketAppend(gs, g, c);
    }
  }

  /** `PushedOnto` read through `Get`, one bucket at a time. */
  lemma PushedOntoGet(prev: Groups, next: Groups, g: Giveaway, c: Category)
    requires PushedOnto(prev, next, g)
    ensures Get(next, c) == Get(prev, c) + Pushed(g, c)
  {
  }

  lemma DlcPushedOnlyOntoDlcs(g: Giveaway)
    requires IsDlc(g)
    ensures Pushed(g, DLCs) == [g]
    ensures Pushed(g, EpicGames) == [] && Pushed(g, Steam) == [] && Pushed(g, PlayStation5) == []
    ensures Pushed(g, Xbox) == [] && Pushed(g, PC) == [] && Pushed(g, Mobile) == [] && Pushed(g, Other) == []
  {
  }

  /** For a record that is not a DLC, what it adds to a platform bucket
      is decided by that bucket's platform test alone. */
  lemma NonDlcPushedByRule(g: Giveaway, c: Category)
    requires !IsDlc(g) && IsPlatformCategory(c)
    ensures Pushed(g, c) == if MatchesRule(c, PlatformTokens(g)) then [g] else []
  {
  }

  /** ... and it goes to Other exactly when no platform test fires, and
      never to DLCs. */
  lemma NonDlcPushedElsewhere(g: Giveaway)
    requires !IsDlc(g)
    ensures Pushed(g, Other) == if AnyRuleMatches(PlatformTokens(g)) then [] else [g]
    ensures Pushed(g, DLCs) == []
  {
  }

  /** `next` is `prev` after the platform tests on `tokens`: each platform
      bucket grows by `g` when its own test fires, Other when none fires,
      and DLCs is left alone. */
  predicate PlatformPushed(prev: Groups, next: Groups, g: Giveaway, tokens: seq<string>) {
    next.epicGames == prev.epicGames + (if SomeTokenIs(tokens, "epic games store") then [g] else [])
    && next.steam == prev.steam + (if SomeTokenIs(tokens, "steam") then [g] else [])
    && next.playStation5 == prev.playStation5 + (if SomeTokenIs(tokens, "playstation 5") then [g] else [])
    && next.xbox == prev.xbox + (if SomeTokenIncludes(tokens, "xbox") then [g] else [])
    && next.pc == prev.pc + (if SomeTokenIs(tokens, "pc") then [g] else [])
    && next.mobile == prev.mobile + (if SomeTokenIs(tokens, "android") || SomeTokenIs(tokens, "ios") then [g] else [])
    && next.other == prev.other + (if SomeTokenIs(tokens, "epic games store") || SomeTokenIs(tokens, "steam")
         || SomeTokenIs(tokens, "playstation 5") || SomeTokenIncludes(tokens, "xbox") || SomeTokenIs(tokens, "pc")
         || SomeTokenIs(tokens, "android") || SomeTokenIs(tokens, "ios") then [] else [g])
    && next.dlcs == prev.dlcs
  }

  /** For a record that is not a DLC, the platform tests push it onto
      exactly the buckets it belongs to. */
  lemma PlatformPushedIsPushedOnto(prev: Groups, next: Groups, g: Giveaway)
    requires !IsDlc(g) && PlatformPushed(prev, next, g, PlatformTokens(g))
    ensures PushedOnto(prev, next, g)
  {
    NonDlcPushedByRule(g, EpicGames);
    NonDlcPushedByRule(g, Steam);
    NonDlcPushedByRule(g, PlayStation5);
    NonDlcPushedByRule(g, Xbox);
    NonDlcPushedByRule(g, PC);
    NonDlcPushedByRule(g, Mobile);
    NonDlcPushedElsewhere(g);
    assert prev.dlcs + [] == prev.dlcs;
  }

  /** The platform half of the loop body: each platform test that fires
      pushes the record onto its bucket and sets `categorized`, and Other
      receives the record when none fired. */
  method PushByPlatform(groups: Groups, g: Giveaway, platforms: seq<string>) returns (next: Groups)
    ensures PlatformPushed(groups, next, g, platforms)
  {
    var epic := SomeTokenIs(platforms, "epic games store");
    var steam := SomeTokenIs(platforms, "steam");
    var ps5 := SomeTokenIs(platforms, "playstation 5");
    var xbox := SomeTokenIncludes(platforms, "xbox");
    var pc := SomeTokenIs(platforms, "pc");
    var mobile := SomeTokenIs(platforms, "android") || SomeTokenIs(platforms, "ios");
    next := groups;
    var categorized := false;
    if epic {
      next := next.(epicGames := next.epicGames + [g]);
      categorized := true;
    }
    assert next.epicGames == groups.epicGames + (if epic then [g] else []);
    if steam {
      next := next.(steam := next.steam + [g]);
      categorized := true;
    }
    assert next.steam == groups.steam + (if steam then [g] else []);
    if ps5 {
      next := next.(playStation5 := next.playStation5 + [g]);
      categorized := true;
    }
    assert next.playStation5 == groups.playStation5 + (if ps5 then [g] else []);
    if xbox {
      next := next.(xbox := next.xbox + [g]);
      categorized := true;
    }
    assert next.xbox == groups.xbox + (if xbox then [g] else []);
    if pc {
      next := next.(pc := next.pc + [g]);
      categorized := true;
    }
    assert next.pc == groups.pc + (if pc then [g] else []);
    if mobile {
      next := next.(mobile := next.mobile + [g]);
      categorized := true;
    }
    assert next.mobile == groups.mobile + (if mobile then [g] else []);
    if !categorized {
      next := next.(other := next.other + [g]);
    }
  }

  /** The body of the loop in `groupByCustomCategories` for one record:
      a DLC is pushed onto DLCs and the rest skipped (the `continue`);
      any other record goes by its platforms. */
  method PushGiveaway(groups: Groups, g: Giveaway) returns (next: Groups)
    ensures PushedOnto(groups, next, g)
  {
    if IsDlc(g) {
      next := groups.(dlcs := groups.dlcs + [g]);
      DlcPushedOnlyOntoDlcs(g);
    } else {
      var platforms := PlatformTokens(g);
      next := PushByPlatform(groups, g, platforms);
      PlatformPushedIsPushedOnto(groups, next, g);
    }
  }

  /** `groupByCustomCategories`: start from the eight empty buckets and push
      every record in input order. Bucket `c` of the result is exactly the
      input records that belong to `c`, in input order. */
  method GroupByCustomCategories(gs: seq<Giveaway>) returns (groups: Groups)
    ensures forall c: Category :: Get(groups, c) == Bucket(gs, c)
  {
    groups := NoGroups;
    GroupsEqual(groups, Grouping([]));
    for i := 0 to |gs|
      invariant groups == Grouping(gs[..i])
    {
      groups := PushNext(groups, gs, i);
    }
    assert gs[..|gs|] == gs;
  }

  /** The loop's pass over `gs[i]`, stated on the groupings of the
      prefixes. */
  method PushNext(groups: Groups, gs: seq<Giveaway>, i: nat) returns (next: Groups)
    requires i < |gs| && groups == Grouping(gs[..i])
    ensures next == Grouping(gs[..i + 1])
  {
    next := PushGiveaway(groups, gs[i]);
    ExtendGrouping(gs[..i], gs[i], groups, next);
    PrefixPush(gs, i);
  }

  // -----------------------------------------------------------------------
  // What the classification guarantees

  /** A DLC-tagged record is in DLCs, and in no other bucket, whatever its
      platforms say. */
  lemma DlcOnlyInDlcs(gs: seq<Giveaway>, g: Giveaway, c: Category)
    requires g in gs && IsDlc(g)
    ensures g in Bucket(gs, c) <==> c == DLCs
  {
    InBucket(gs, c, g);
  }

  /** Every input record lands in at least one bucket. */
  lemma {:induction false} EveryRecordClassified(gs: seq<Giveaway>, g: Giveaway)
    requires g in gs
    ensures exists c :: c in Categories && g in Bucket(gs, c)
  {
    var tokens := PlatformTokens(g);
    var c :=
      if IsDlc(g) then DLCs
      else if MatchesRule(EpicGames, tokens) then EpicGames
      else if MatchesRule(Steam, tokens) then Steam
      else if MatchesRule(PlayStation5, tokens) then PlayStation5
      else if MatchesRule(Xbox, tokens) then Xbox
      else if MatchesRule(PC, tokens) then PC
      else if MatchesRule(Mobile, tokens) then Mobile
      else Other;
    InBucket(gs, c, g);
  }

  /** For a record that is not a DLC, Other is the bucket of records no
      platform rule accepts. */
  lemma {:induction false} OtherIffNoRule(g: Giveaway)
    requires !IsDlc(g)
    ensures Belongs(g, Other) <==> forall c :: IsPlatformCategory(c) ==> !Belongs(g, c)
  {
    var tokens := PlatformTokens(g);
    if AnyRuleMatches(tokens) {
      var c :=
        if MatchesRule(EpicGames, tokens) then EpicGames
        else if MatchesRule(Steam, tokens) then Steam
        else if MatchesRule(PlayStation5, tokens) then PlayStation5
        else if MatchesRule(Xbox, tokens) then Xbox
        else if MatchesRule(PC, tokens) then PC
        else Mobile;
      assert IsPlatformCategory(c) && Belongs(g, c);
    } else {
      forall c | IsPlatformCategory(c) ensures !Belongs(g, c) {
        assert !MatchesRule(c, tokens);
      }
    }
  }

  /** A record that is not a DLC is in Other exactly when it is in none of
      the six platform buckets. */
  lemma OtherIffNoPlatformBucket(gs: seq<Giveaway>, g: Giveaway)
    requires g in gs && !IsDlc(g)
    ensures g in Bucket(gs, Other) <==>
      forall c :: c in Categories && IsPlatformCategory(c) ==> g !in Bucket(gs, c)
  {
    forall c ensures g in Bucket(gs, c) <==> Belongs(g, c) {
      InBucket(gs, c, g);
    }
    OtherIffNoRule(g);
    CategoriesAreAllDistinct();
  }

  /** Each bucket keeps its records in input order, and holds each record
      exactly as many times as the input does, or not at all. */
  lemma BucketIsOrderedSubsequence(gs: seq<Giveaway>, c: Category)
    ensures IsSubsequence(Bucket(gs, c), gs)
    ensures forall g :: multiset(Bucket(gs, c))[g] == if Belongs(g, c) then multiset(gs)[g] else 0
  {
    FilterIsSubsequence(gs, (g: Giveaway) => Belongs(g, c));
    forall g ensures multiset(Bucket(gs, c))[g] == if Belongs(g, c) then multiset(gs)[g] else 0 {
      FilterCount(gs, (g: Giveaway) => Belongs(g, c), g);
    }
  }

  lemma SteamAndXboxSplit()
    ensures Split("Steam, Xbox Series X", ',') == ["Steam", " Xbox Series X"]
  {
    var parts := ["Steam", " Xbox Series X"];
    assert Join(parts, ',') == "Steam, Xbox Series X";
    SplitJoin(parts, ',');
  }

  lemma SteamAndXboxTrim()
    ensures TrimAll(["Steam", " Xbox Series X"]) == ["Steam", "Xbox Series X"]
  {
    TrimOfTrimmed("Steam");
    XboxTrimmed();
    TrimAllPair("Steam", " Xbox Series X", "Steam", "Xbox Series X");
  }

  lemma XboxTrimmed()
    ensures Trim(" Xbox Series X") == "Xbox Series X"
  {
    var s, t := " Xbox Series X", "Xbox Series X";
    TailIs(s, t);
    TrimDropSpace(s);
    TrimOfTrimmed(t);
  }

  lemma TrimAllPair(a: string, b: string, ta: string, tb: string)
    requires Trim(a) == ta && Trim(b) == tb
    ensures TrimAll([a, b]) == [ta, tb]
  {
  }

  lemma SteamAndXboxTokens(g: Giveaway)
    requires g.platforms == "Steam, Xbox Series X"
    ensures PlatformTokens(g) == ["Steam", "Xbox Series X"]
  {
    SteamAndXboxSplit();
    SteamAndXboxTrim();
  }

  lemma SteamAndXboxRules(tokens: seq<string>)
    requires tokens == ["Steam", "Xbox Series X"]
    ensures SomeTokenIs(tokens, "steam") && SomeTokenIncludes(tokens, "xbox")
  {
    assert SomeTokenIs(tokens, "steam") by {
      ToLowerIs("Steam", "steam");
    }
    assert SomeTokenIncludes(tokens, "xbox") by {
      ToLowerIs("Xbox Series X", "xbox series x");
      assert OccursAt(ToLower(tokens[1]), "xbox", 0);
      assert tokens[1..][0] == tokens[1];
    }
  }

  /** The platform rules are tested independently: a record listed for
      "Steam, Xbox Series X" is in both buckets, and so not in Other. */
  lemma SteamAndXboxExample(g: Giveaway)
    requires !IsDlc(g) && g.platforms == "Steam, Xbox Series X"
    ensures Belongs(g, Steam) && Belongs(g, Xbox)
    ensures !Belongs(g, Other)
  {
    SteamAndXboxTokens(g);
    SteamAndXboxRules(PlatformTokens(g));
  }
}
