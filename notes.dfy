/** The writer half of `fetchAndCreateNotes`: the vault, the plan of
    writes for one refresh, and the loop that carries it out. */
module Notes {
  import opened Wrappers
  import opened Text
  import opened Seqs
  import opened Giveaways
  import opened Classify
  import opened Markdown
  import opened Settings

  const DefaultFolder := "Game Giveaways"

  /** `this.settings.folderName.trim() || "Game Giveaways"`. */
  function ResolveFolder(folderName: string): (r: string)
    ensures r != [] && !IsSpace(r[0]) && !IsSpace(r[|r| - 1])
    ensures Trim(folderName) != [] ==> r == Trim(folderName)
  {
    if Trim(folderName) == [] then DefaultFolder else Trim(folderName)
  }

  /** A resolved folder name has nothing to trim, and resolves to itself. */
  lemma ResolveFolderIdempotent(folderName: string)
    ensures Trim(ResolveFolder(folderName)) == ResolveFolder(folderName)
    ensures ResolveFolder(ResolveFolder(folderName)) == ResolveFolder(folderName)
  {
    TrimOfTrimmed(ResolveFolder(folderName));
  }

  /** The default is used exactly for a blank name, or for one that trims
      to the default itself. */
  lemma ResolveFolderBlank(folderName: string)
    ensures ResolveFolder(folderName) == DefaultFolder <==>
      (forall k :: 0 <= k < |folderName| ==> IsSpace(folderName[k])) || Trim(folderName) == DefaultFolder
  {
    TrimEmptyIffBlank(folderName);
  }

  /** `${folder}/${category}.md`. */
  function NotePath(folder: string, c: Category): string {
    folder + "/" + Name(c) + ".md"
  }

  /** Distinct buckets have distinct notes in the same folder. */
  lemma NotePathsDiffer(folder: string, c: Category, d: Category)
    requires c != d
    ensures NotePath(folder, c) != NotePath(folder, d)
  {
    if NotePath(folder, c) == NotePath(folder, d) {
      FramedInjective(folder + "/", Name(c), Name(d), ".md");
      NamesDiffer(c, d);
    }
  }

  // ---------------------------------------------------------------------
  // Sequences of writes

  datatype Write = Write(path: string, content: string)

  /** The files after performing `writes` in order: each write creates or
      overwrites its path. */
  function Apply(files: map<string, string>, writes: seq<Write>): map<string, string> {
    if writes == [] then files
    else
      var last := writes[|writes| - 1];
      Apply(files, writes[..|writes| - 1])[last.path := last.content]
  }

  /** The content the last write to `p` leaves, if any write names it. */
  function LastWrite(writes: seq<Write>, p: string): Option<string> {
    if writes == [] then None
    else if writes[|writes| - 1].path == p then Some(writes[|writes| - 1].content)
    else LastWrite(writes[..|writes| - 1], p)
  }

  /** A path ends with the content of its last write, and keeps its old
      state when no write names it. */
  lemma {:induction false} ApplyAt(files: map<string, string>, writes: seq<Write>, p: string)
    ensures p in Apply(files, writes) <==> p in files || LastWrite(writes, p).Some?
    ensures p in Apply(files, writes) ==>
      Apply(files, writes)[p] == if LastWrite(writes, p).Some? then LastWrite(writes, p).value else files[p]
  {
    if writes != [] {
      ApplyAt(files, writes[..|writes| - 1], p);
    }
  }

  /** Doing the same writes twice leaves what doing them once leaves. */
  lemma ApplyIdempotent(files: map<string, string>, writes: seq<Write>)
    ensures Apply(Apply(files, writes), writes) == Apply(files, writes)
  {
    var once := Apply(files, writes);
    var twice := Apply(once, writes);
    forall p ensures (p in twice <==> p in once) && (p in twice ==> twice[p] == once[p]) {
      ApplyAt(files, writes, p);
      ApplyAt(once, writes, p);
    }
  }

  // ---------------------------------------------------------------------
  // The plan of one refresh

  /** The write for bucket `c`, skipped when the bucket is empty. */
  function NoteWrite(folder: string, groups: Groups, c: Category): seq<Write> {
    if Get(groups, c) == [] then []
    else [Write(NotePath(folder, c), Render(Get(groups, c), Name(c)))]
  }

  /** The writes for buckets `cats`, in that order. */
  function PlanFor(folder: string, groups: Groups, cats: seq<Category>): seq<Write> {
    if cats == [] then []
    else PlanFor(folder, groups, cats[..|cats| - 1]) + NoteWrite(folder, groups, cats[|cats| - 1])
  }

  /** The writes of one refresh, bucket by bucket in key order. */
  function Plan(folder: string, groups: Groups): seq<Write> {
    PlanFor(folder, groups, Categories)
  }

  lemma LastWriteAppend(a: seq<Write>, b: seq<Write>, p: string)
    requires |b| <= 1
    ensures LastWrite(a + b, p) == if b != [] && b[0].path == p then Some(b[0].content) else LastWrite(a, p)
  {
    if b != [] {
      assert (a + b)[..|a + b| - 1] == a;
    } else {
      assert a + b == a;
    }
  }

  /** A non-empty bucket among `cats` has its note as the last write to
      its path. */
  lemma {:induction false} PlanForWrites(folder: string, groups: Groups, cats: seq<Category>, c: Category)
    requires c in cats && Get(groups, c) != []
    ensures LastWrite(PlanFor(folder, groups, cats), NotePath(folder, c)) == Some(Render(Get(groups, c), Name(c)))
  {
    var init := cats[..|cats| - 1];
    var last := cats[|cats| - 1];
    LastWriteAppend(PlanFor(folder, groups, init), NoteWrite(folder, groups, last), NotePath(folder, c));
    if last != c {
      InFrontOrLast(cats, c);
      NotePathsDiffer(folder, last, c);
      PlanForWrites(folder, groups, init, c);
    }
  }

  /** A path that is no non-empty bucket's note among `cats` is never
      written. */
  lemma {:induction false} PlanForSkips(folder: string, groups: Groups, cats: seq<Category>, p: string)
    requires forall c :: c in cats && Get(groups, c) != [] ==> p != NotePath(folder, c)
    ensures LastWrite(PlanFor(folder, groups, cats), p) == None
  {
    if cats != [] {
      var init := cats[..|cats| - 1];
      var last := cats[|cats| - 1];
      LastWriteAppend(PlanFor(folder, groups, init), NoteWrite(folder, groups, last), p);
      assert forall c :: c in init ==> c in cats;
      PlanForSkips(folder, groups, init, p);
    }
  }

  /** After a refresh, each non-empty bucket's note holds that bucket's
      formatted content, whether it was created or overwritten. */
  lemma NoteWritten(files: map<string, string>, folder: string, groups: Groups, c: Category)
    requires Get(groups, c) != []
    ensures NotePath(folder, c) in Apply(files, Plan(folder, groups))
    ensures Apply(files, Plan(folder, groups))[NotePath(folder, c)] == Render(Get(groups, c), Name(c))
  {
    CategoriesAreAllDistinct();
    PlanForWrites(folder, groups, Categories, c);
    ApplyAt(files, Plan(folder, groups), NotePath(folder, c));
  }

  /** Any path that is not a non-empty bucket's note is left as it was. */
  lemma OtherPathsUnchanged(files: map<string, string>, folder: string, groups: Groups, p: string)
    requires forall c :: Get(groups, c) != [] ==> p != NotePath(folder, c)
    ensures p in Apply(files, Plan(folder, groups)) <==> p in files
    ensures p in files ==> Apply(files, Plan(folder, groups))[p] == files[p]
  {
    PlanForSkips(folder, groups, Categories, p);
    ApplyAt(files, Plan(folder, groups), p);
  }

  /** An empty bucket produces no note: its path is left as it was. */
  lemma EmptyBucketWritesNothing(files: map<string, string>, folder: string, groups: Groups, c: Category)
    requires Get(groups, c) == []
    ensures NotePath(folder, c) in Apply(files, Plan(folder, groups)) <==> NotePath(folder, c) in files
    ensures NotePath(folder, c) in files ==>
      Apply(files, Plan(folder, groups))[NotePath(folder, c)] == files[NotePath(folder, c)]
  {
    forall d | Get(groups, d) != [] ensures NotePath(folder, c) != NotePath(folder, d) {
      NotePathsDiffer(folder, c, d);
    }
    OtherPathsUnchanged(files, folder, groups, NotePath(folder, c));
  }

  // ---------------------------------------------------------------------
  // The vault

  /** The part of the Obsidian vault the writer touches: files by path
      with their content, and folders by path. A path is one or the
      other. */
  class Vault {
    var files: map<string, string>
    var folders: set<string>

    ghost predicate Valid()
      reads this
    {
      files.Keys !! folders
    }

    constructor(files0: map<string, string>, folders0: set<string>)
      requires files0.Keys !! folders0
      ensures Valid() && files == files0 && folders == folders0
    {
      files := files0;
      folders := folders0;
    }

    /** `vault.createFolder(path)`: fails when something already exists at
        `path`, otherwise adds the folder. */
    method CreateFolder(path: string) returns (ok: bool)
      requires Valid()
      modifies this
      ensures Valid() && files == old(files)
      ensures ok <==> path !in old(files) && path !in old(folders)
      ensures folders == if ok then old(folders) + {path} else old(folders)
    {
      ok := path !in files && path !in folders;
      if ok {
        folders := folders + {path};
      }
    }

    /** `vault.getAbstractFileByPath(path) instanceof TFile`. */
    function IsFile(path: string): bool
      reads this
    {
      path in files
    }

    /** `vault.modify(file, content)` on an existing file. */
    method Modify(path: string, content: string)
      requires Valid() && path in files
      modifies this
      ensures Valid() && files == old(files)[path := content] && folders == old(folders)
    {
      files := files[path := content];
    }

    /** `vault.create(path, content)`: fails when something already exists
        at `path`, otherwise adds the file. */
    method Create(path: string, content: string) returns (ok: bool)
      requires Valid()
      modifies this
      ensures Valid() && folders == old(folders)
      ensures ok <==> path !in old(files) && path !in old(folders)
      ensures files == if ok then old(files)[path := content] else old(files)
    {
      ok := path !in files && path !in folders;
      if ok {
        files := files[path := content];
      }
    }
  }

  /** One pass of the loop over `Object.entries(groups)`: an empty bucket
      is skipped; otherwise the bucket is formatted and its note modified
      when a file already exists there, or created. A `create` that fails
      (a folder sits at the path) changes nothing. */
  method WriteNote(vault: Vault, folder: string, groups: Groups, c: Category) returns (ok: bool)
    requires vault.Valid()
    modifies vault
    ensures vault.Valid() && vault.folders == old(vault.folders)
    ensures ok <==> Get(groups, c) == [] || NotePath(folder, c) !in old(vault.folders)
    ensures ok ==> vault.files == Apply(old(vault.files), NoteWrite(folder, groups, c))
    ensures !ok ==> vault.files == old(vault.files)
  {
    var entries := Get(groups, c);
    if |entries| == 0 {
      return true;
    }
    var filePath := NotePath(folder, c);
    var content := FormatGiveawayMarkdown(entries, Name(c));
    assert NoteWrite(folder, groups, c) == [Write(filePath, content)];
    assert Apply(vault.files, [Write(filePath, content)]) == vault.files[filePath := content] by {
      assert [Write(filePath, content)][..0] == [];
    }
    if vault.IsFile(filePath) {
      vault.Modify(filePath, content);
      ok := true;
    } else {
      ok := vault.Create(filePath, content);
    }
  }

  /** Writes done in two runs leave what the combined run leaves. */
  lemma {:induction false} ApplyAppend(files: map<string, string>, a: seq<Write>, b: seq<Write>)
    ensures Apply(files, a + b) == Apply(Apply(files, a), b)
    decreases |b|
  {
    if b == [] {
      assert a + b == a;
    } else {
      assert (a + b)[..|a + b| - 1] == a + b[..|b| - 1];
      ApplyAppend(files, a, b[..|b| - 1]);
    }
  }

  /** A non-empty bucket whose note path is taken by a folder: writing
      it makes `vault.create` fail. */
  predicate Blocked(folders: set<string>, folder: string, groups: Groups, c: Category) {
    Get(groups, c) != [] && NotePath(folder, c) in folders
  }

  /** No bucket before position `i` of the key order is blocked. */
  predicate FreeBefore(folders: set<string>, folder: string, groups: Groups, i: nat) {
    forall j :: 0 <= j < i && j < |Categories| ==> !Blocked(folders, folder, groups, Categories[j])
  }

  lemma FreeStep(folders: set<string>, folder: string, groups: Groups, i: nat)
    requires i < |Categories| && FreeBefore(folders, folder, groups, i)
    requires !Blocked(folders, folder, groups, Categories[i])
    ensures FreeBefore(folders, folder, groups, i + 1)
  {
  }

  lemma FreeEverywhere(folders: set<string>, folder: string, groups: Groups)
    requires FreeBefore(folders, folder, groups, |Categories|)
    ensures forall c :: !Blocked(folders, folder, groups, c)
  {
    forall c ensures !Blocked(folders, folder, groups, c) {
      assert Categories[Position(c)] == c;
    }
  }

  /** The loop over `Object.entries(groups)`, one bucket at a time in key
      order. It fails exactly when some bucket is blocked; a failed
      `create` ends the refresh at the first blocked bucket, and the notes
      written before it stay. */
  method WriteNotes(vault: Vault, folder: string, groups: Groups) returns (ok: bool)
    requires vault.Valid()
    modifies vault
    ensures vault.Valid() && vault.folders == old(vault.folders)
    ensures ok <==> forall c :: !Blocked(vault.folders, folder, groups, c)
    ensures ok ==> vault.files == Apply(old(vault.files), Plan(folder, groups))
    ensures !ok ==> exists k :: (0 <= k < |Categories| && Blocked(vault.folders, folder, groups, Categories[k])
      && vault.files == Apply(old(vault.files), PlanFor(folder, groups, Categories[..k])))
  {
    ok := true;
    for i := 0 to |Categories|
      invariant vault.Valid() && vault.folders == old(vault.folders)
      invariant vault.files == Apply(old(vault.files), PlanFor(folder, groups, Categories[..i]))
      invariant FreeBefore(vault.folders, folder, groups, i)
    {
      ghost var before := vault.files;
      var written := WriteNote(vault, folder, groups, Categories[i]);
      if !written {
        ok := false;
        assert Blocked(vault.folders, folder, groups, Categories[i]);
        assert vault.files == before;
        return;
      }
      PlanStep(old(vault.files), folder, groups, Categories, i);
      FreeStep(vault.folders, folder, groups, i);
    }
    assert Categories[..|Categories|] == Categories;
    FreeEverywhere(vault.folders, folder, groups);
  }

  /** One more bucket's write extends the files written so far. */
  lemma PlanStep(files: map<string, string>, folder: string, groups: Groups, cats: seq<Category>, i: nat)
    requires i < |cats|
    ensures Apply(files, PlanFor(folder, groups, cats[..i + 1]))
      == Apply(Apply(files, PlanFor(folder, groups, cats[..i])), NoteWrite(folder, groups, cats[i]))
  {
    assert cats[..i + 1][..i] == cats[..i];
    ApplyAppend(files, PlanFor(folder, groups, cats[..i]), NoteWrite(folder, groups, cats[i]));
  }

  // ---------------------------------------------------------------------
  // One refresh

  datatype Outcome = Updated | Failed

  /** A note path is longer than its folder, so creating the folder never
      blocks a note. */
  lemma BlockedAfterCreate(before: set<string>, after: set<string>, folder: string, groups: Groups, c: Category)
    requires after == before || after == before + {folder}
    ensures Blocked(after, folder, groups, c) <==> Blocked(before, folder, groups, c)
  {
    assert |NotePath(folder, c)| > |folder|;
  }

  /** `fetchAndCreateNotes` from the parsed response on: filter, classify,
      resolve the folder, create it (ignoring a failure), and write the
      notes. A response that is not an array changes nothing. Otherwise
      the folder is added unless a file holds its path, and the refresh
      succeeds exactly when no bucket is blocked by a folder that was
      already there: then the whole plan is applied, and else the plan up
      to the first blocked bucket. */
  method FetchAndCreateNotes(vault: Vault, settings: Settings, response: ParsedResponse) returns (outcome: Outcome)
    requires vault.Valid()
    modifies vault
    ensures vault.Valid()
    ensures response.NotAnArray? ==> outcome == Failed && vault.files == old(vault.files) && vault.folders == old(vault.folders)
    ensures response.Records? ==>
      var folder := ResolveFolder(settings.folderName);
      vault.folders == old(vault.folders) + (if folder in old(vault.files) then {} else {folder})
    ensures response.Records? ==>
      var folder := ResolveFolder(settings.folderName);
      var groups := Grouping(FilterResponse(response).value);
      (outcome == Updated <==> forall c :: !Blocked(old(vault.folders), folder, groups, c))
    ensures outcome == Updated ==>
      response.Records? &&
      vault.files == Apply(old(vault.files), Plan(ResolveFolder(settings.folderName), Grouping(FilterResponse(response).value)))
    ensures response.Records? && outcome == Failed ==>
      var folder := ResolveFolder(settings.folderName);
      var groups := Grouping(FilterResponse(response).value);
      exists k :: (0 <= k < |Categories| && Blocked(old(vault.folders), folder, groups, Categories[k])
        && vault.files == Apply(old(vault.files), PlanFor(folder, groups, Categories[..k])))
  {
    var fetched := FilterResponse(response);
    if fetched.Failure? {
      return Failed;
    }
    var groups := GroupByCustomCategories(fetched.value);
    GroupsEqual(groups, Grouping(fetched.value));
    var folder := ResolveFolder(settings.folderName);
    var ok := CreateAndWrite(vault, folder, groups);
    outcome := if ok then Updated else Failed;
  }

  /** `createFolder(folder).catch(() => {})` followed by the writer loop. */
  method CreateAndWrite(vault: Vault, folder: string, groups: Groups) returns (ok: bool)
    requires vault.Valid()
    modifies vault
    ensures vault.Valid()
    ensures vault.folders == old(vault.folders) + (if folder in old(vault.files) then {} else {folder})
    ensures ok <==> forall c :: !Blocked(old(vault.folders), folder, groups, c)
    ensures ok ==> vault.files == Apply(old(vault.files), Plan(folder, groups))
    ensures !ok ==> exists k :: (0 <= k < |Categories| && Blocked(old(vault.folders), folder, groups, Categories[k])
      && vault.files == Apply(old(vault.files), PlanFor(folder, groups, Categories[..k])))
  {
    var _ := vault.CreateFolder(folder);
    forall c ensures Blocked(vault.folders, folder, groups, c) <==> Blocked(old(vault.folders), folder, groups, c) {
      BlockedAfterCreate(old(vault.folders), vault.folders, folder, groups, c);
    }
    ok := WriteNotes(vault, folder, groups);
  }

  /** No note lists a DRM-Free record. */
  lemma NoDrmFreeInNotes(response: ParsedResponse, c: Category, g: Giveaway)
    requires response.Records?
    requires g in Get(Grouping(FilterResponse(response).value), c)
    ensures !IsDrmFree(g)
  {
    InBucket(FilterResponse(response).value, c, g);
  }
}
