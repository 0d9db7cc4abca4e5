/** `formatGiveawayMarkdown`: the note written for one bucket. */
module Markdown {
  import opened Wrappers
  import opened Text
  import opened Giveaways

  /** JavaScript truthiness of an optional string field: defined and not
      empty. */
  predicate Present(field: Option<string>) {
    field.Some? && field.value != []
  }

  /** `# {category} Giveaways ({n})` and a blank line. */
  function Header(category: string, n: nat): string {
    "# " + category + " Giveaways (" + NatToString(n) + ")\n\n"
  }

  function TitleLine(g: Giveaway): string {
    "## [" + g.title + "](" + g.openGiveawayUrl + ")\n"
  }

  function ThumbnailLine(thumbnail: string): string {
    "![Thumbnail](" + thumbnail + ")\n\n"
  }

  function WorthLine(g: Giveaway): string {
    "- **Worth**: " + g.worth + "\n"
  }

  function PublishedLine(date: string): string {
    "- **Published**: " + date + "\n"
  }

  function EndsLine(date: string): string {
    "- **Ends**: " + date + "\n"
  }

  function UsersLine(users: int): string {
    "- **Users Claimed**: " + IntToString(users) + "\n"
  }

  /** The description and instructions sections and the closing rule. */
  function Sections(g: Giveaway): string {
    "\n### Description\n" + g.description + "\n\n### Instructions\n" + g.instructions + "\n\n---\n\n"
  }

  /** The optional lines: each is written only when its field is truthy,
      and the users line whenever the count is defined. */
  function ThumbnailPart(g: Giveaway): string {
    if Present(g.thumbnail) then ThumbnailLine(g.thumbnail.value) else []
  }

  function PublishedPart(g: Giveaway): string {
    if Present(g.publishedDate) then PublishedLine(g.publishedDate.value) else []
  }

  function EndsPart(g: Giveaway): string {
    if Present(g.endDate) then EndsLine(g.endDate.value) else []
  }

  function UsersPart(g: Giveaway): string {
    if g.users.Some? then UsersLine(g.users.value) else []
  }

  /** The block written for one record. */
  function Block(g: Giveaway): string {
    TitleLine(g) + ThumbnailPart(g) + WorthLine(g) + PublishedPart(g) + EndsPart(g) + UsersPart(g) + Sections(g)
  }

  /** The blocks of `gs`, one per record, appended in input order. */
  function Blocks(gs: seq<Giveaway>): string {
    if gs == [] then [] else Blocks(gs[..|gs| - 1]) + Block(gs[|gs| - 1])
  }

  /** The whole note for bucket `category` holding `gs`. */
  function Render(gs: seq<Giveaway>, category: string): string {
    Header(category, |gs|) + Blocks(gs)
  }

  lemma BlocksPush(gs: seq<Giveaway>)
    requires gs != []
    ensures Blocks(gs) == Blocks(gs[..|gs| - 1]) + Block(gs[|gs| - 1])
  {
  }

  lemma AppendAssociative(a: string, b: string, c: string)
    ensures a + b + c == a + (b + c)
  {
  }

  /** Appending seven pieces one `+=` at a time appends their
      concatenation. */
  lemma AppendInTurn(md: string, a: string, b: string, c: string, d: string, e: string, f: string, h: string)
    ensures md + a + b + c + d + e + f + h == md + (a + b + c + d + e + f + h)
  {
  }

  /** One pass of the loop in `formatGiveawayMarkdown`: the title line,
      the optional thumbnail, the worth line, the optional published, ends
      and users lines, and the closing sections, each appended to `md`. */
  method AppendBlock(md0: string, g: Giveaway) returns (md: string)
    ensures md == md0 + Block(g)
  {
    md := md0 + TitleLine(g);
    if Present(g.thumbnail) {
      md := md + ThumbnailLine(g.thumbnail.value);
    }
    assert md == md0 + TitleLine(g) + ThumbnailPart(g);
    md := md + WorthLine(g);
    if Present(g.publishedDate) {
      md := md + PublishedLine(g.publishedDate.value);
    }
    assert md == md0 + TitleLine(g) + ThumbnailPart(g) + WorthLine(g) + PublishedPart(g);
    if Present(g.endDate) {
      md := md + EndsLine(g.endDate.value);
    }
    assert md == md0 + TitleLine(g) + ThumbnailPart(g) + WorthLine(g) + PublishedPart(g) + EndsPart(g);
    if g.users.Some? {
      md := md + UsersLine(g.users.value);
    }
    assert md == md0 + TitleLine(g) + ThumbnailPart(g) + WorthLine(g) + PublishedPart(g) + EndsPart(g) + UsersPart(g);
    md := md + Sections(g);
    AppendInTurn(md0, TitleLine(g), ThumbnailPart(g), WorthLine(g), PublishedPart(g), EndsPart(g), UsersPart(g), Sections(g));
  }

  /** `formatGiveawayMarkdown`: the header, then one block per record in
      input order. */
  method FormatGiveawayMarkdown(gs: seq<Giveaway>, category: string) returns (md: string)
    ensures md == Render(gs, category)
  {
    md := Header(category, |gs|);
    for i := 0 to |gs|
      invariant md == Header(category, |gs|) + Blocks(gs[..i])
    {
      md := AppendBlock(md, gs[i]);
      BlocksPush(gs[..i + 1]);
      assert gs[..i + 1][..i] == gs[..i];
      AppendAssociative(Header(category, |gs|), Blocks(gs[..i]), Block(gs[i]));
    }
    assert gs[..|gs|] == gs;
  }

  // ---------------------------------------------------------------------
  // What the note looks like

  /** The header names the category and carries the number of records as
      plain decimal digits. */
  lemma HeaderCarriesCount(gs: seq<Giveaway>, category: string)
    ensures exists digits ::
      (forall k :: 0 <= k < |digits| ==> IsDigit(digits[k])) && DecimalValue(digits) == |gs|
      && Render(gs, category)[..|Header(category, |gs|)|] == "# " + category + " Giveaways (" + digits + ")\n\n"
  {
    var digits := NatToString(|gs|);
    assert Render(gs, category)[..|Header(category, |gs|)|] == Header(category, |gs|);
  }

  lemma BlocksPushBack(gs: seq<Giveaway>, g: Giveaway)
    ensures Blocks(gs + [g]) == Blocks(gs) + Block(g)
  {
    assert (gs + [g])[..|gs|] == gs;
  }

  /** The blocks of two runs of records are the blocks of the first run
      followed by those of the second. */
  lemma {:induction false} BlocksAppend(a: seq<Giveaway>, b: seq<Giveaway>)
    ensures Blocks(a + b) == Blocks(a) + Blocks(b)
    decreases |b|
  {
    if b == [] {
      assert a + b == a;
    } else {
      var init := b[..|b| - 1];
      var last := b[|b| - 1];
      assert b == init + [last];
      assert a + b == (a + init) + [last];
      BlocksAppend(a, init);
      BlocksPushBack(a + init, last);
      BlocksPushBack(init, last);
      AppendAssociative(Blocks(a), Blocks(init), Block(last));
    }
  }

  /** A single record's note body is its block. */
  lemma BlocksOfOne(g: Giveaway)
    ensures Blocks([g]) == Block(g)
  {
    assert [g][..0] == [];
  }

  predicate EndsWith(s: string, suffix: string) {
    |s| >= |suffix| && s[|s| - |suffix|..] == suffix
  }

  lemma EndsWithAppend(r: string, s: string, suffix: string)
    requires EndsWith(s, suffix)
    ensures EndsWith(r + s, suffix)
  {
    assert (r + s)[|r + s| - |suffix|..] == s[|s| - |suffix|..];
  }

  /** Every block ends with the horizontal rule and a blank line. */
  lemma BlockEndsWithRule(g: Giveaway)
    ensures EndsWith(Block(g), "---\n\n")
  {
    var rest := TitleLine(g) + ThumbnailPart(g) + WorthLine(g) + PublishedPart(g) + EndsPart(g) + UsersPart(g);
    var front := "\n### Description\n" + g.description + "\n\n### Instructions\n" + g.instructions + "\n\n";
    assert Sections(g) == front + "---\n\n";
    assert Block(g) == (rest + front) + "---\n\n";
    EndsWithAppend(rest + front, "---\n\n", "---\n\n");
  }

  /** A note with at least one record ends with the rule of its last
      block. */
  lemma RenderEndsWithRule(gs: seq<Giveaway>, category: string)
    requires gs != []
    ensures EndsWith(Render(gs, category), "---\n\n")
  {
    BlockEndsWithRule(gs[|gs| - 1]);
    AppendAssociative(Header(category, |gs|), Blocks(gs[..|gs| - 1]), Block(gs[|gs| - 1]));
    EndsWithAppend(Header(category, |gs|) + Blocks(gs[..|gs| - 1]), Block(gs[|gs| - 1]), "---\n\n");
  }

  /** Each optional line is written exactly when its field is truthy,
      and the users line whenever the count is defined, 0 included. */
  lemma OptionalLinesShownIff(g: Giveaway)
    ensures ThumbnailPart(g) != [] <==> Present(g.thumbnail)
    ensures PublishedPart(g) != [] <==> Present(g.publishedDate)
    ensures EndsPart(g) != [] <==> Present(g.endDate)
    ensures UsersPart(g) != [] <==> g.users.Some?
  {
  }

  /** The thumbnail line carries exactly the thumbnail. */
  lemma ThumbnailLineIff(g: Giveaway, v: string)
    ensures ThumbnailPart(g) == ThumbnailLine(v) <==> g.thumbnail == Some(v) && v != []
  {
    if ThumbnailPart(g) == ThumbnailLine(v) {
      assert ThumbnailLine(v) != [];
      FramedInjective("![Thumbnail](", g.thumbnail.value, v, ")\n\n");
    }
  }

  /** The published and ends lines carry exactly their dates. */
  lemma DateLinesIff(g: Giveaway, v: string)
    ensures PublishedPart(g) == PublishedLine(v) <==> g.publishedDate == Some(v) && v != []
    ensures EndsPart(g) == EndsLine(v) <==> g.endDate == Some(v) && v != []
  {
    if PublishedPart(g) == PublishedLine(v) {
      assert PublishedLine(v) != [];
      FramedInjective("- **Published**: ", g.publishedDate.value, v, "\n");
    }
    if EndsPart(g) == EndsLine(v) {
      assert EndsLine(v) != [];
      FramedInjective("- **Ends**: ", g.endDate.value, v, "\n");
    }
  }

  /** The users line carries exactly the claimed count. */
  lemma UsersLineIff(g: Giveaway, n: int)
    ensures UsersPart(g) == UsersLine(n) <==> g.users == Some(n)
  {
    if UsersPart(g) == UsersLine(n) {
      assert UsersLine(n) != [];
      FramedInjective("- **Users Claimed**: ", IntToString(g.users.value), IntToString(n), "\n");
      IntToStringInjective(g.users.value, n);
    }
  }

  /** A count of 0 is still written. */
  lemma ZeroUsersShown(g: Giveaway)
    requires g.users == Some(0)
    ensures UsersPart(g) == "- **Users Claimed**: 0\n"
  {
    assert IntToString(0) == "0";
  }
}
