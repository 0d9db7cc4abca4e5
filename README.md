# Game Giveaways by platform — a verified model

This project models the core of an Obsidian plugin. The plugin fetches a
list of free-game giveaways and sorts each record into one of eight fixed
buckets by platform: Epic Games, Steam, PlayStation 5, Xbox, PC, Mobile,
DLCs and Other. It writes one Markdown note per non-empty bucket into a
vault folder, and it can re-run on a timer, including a weekly slot on
Thursdays at 18:04.

The model follows `main.ts`; each part is one module.

- `Giveaways`: the record and the fetch filter. A parsed response that is
  not an array is an error. Otherwise the records whose `platforms` contains
  "DRM-Free" are dropped.
- `Classify` (`groupByCustomCategories`):
  - A record whose type, lowercased, is "dlc" goes to DLCs only.
  - Every other record is checked against six independent platform tests on
    its comma-split, trimmed, lowercased platform tokens. Xbox uses a
    substring test; the other five require an exact token.
  - A record that no test accepts goes to Other.
  - The result is a record with one field per key. The loop and the
    `categorized` flag are imperative methods, proved against `Bucket`, the
    specification function: the input filtered by `Belongs`.
- `Markdown` (`formatGiveawayMarkdown`): the header and one block per record.
  The `md +=` loop is a method proved equal to `Render`.
- `Notes`: the folder fallback, the note path, and the vault as a class.
  - The vault holds files by path with their content, and folders by path.
  - The writer loop is a method proved equal to `Apply` of the refresh's
    `Plan`: the list of (path, content) writes.
  - `FetchAndCreateNotes` chains filter, classify, folder creation and
    writing.
- `Settings`: the `Object.assign` merge of stored data over the defaults.
- `Schedule`: the next-Thursday arithmetic on a local millisecond clock
  without daylight saving, counted from 1970-01-01 (a Thursday), so
  `getDay()` is `(day + 4) % 7`. A class holds the three timer handles
  together with the host's table of armed timers.
- `Text` and `Seqs`: the ASCII string built-ins (`toLowerCase`, `trim`,
  `split`, `includes`, number rendering) and a generic order-preserving
  filter.

## Model

| member | source | states |
|---|---|---|
| Giveaways.FilterResponse | main.ts:107-108 | A non-array response is the only error. On success the result keeps exactly the records whose platforms do not contain "DRM-Free", in input order and with the input's multiplicities. |
| Giveaways.IsDrmFree | main.ts:108 | `platforms.includes("DRM-Free")` holds exactly when "DRM-Free" occurs in the platforms string at some offset, case-sensitively. |
| Seqs.Filter | main.ts:108 | `filter` keeps no more elements than its input, and every kept element passes the test. |
| Seqs.FilterIsSubsequence | main.ts:108 | `filter` keeps an in-order subsequence of its input. |
| Seqs.FilterCount | main.ts:108 | `filter` keeps every copy of a kept record and no copy of a dropped one. |
| Text.Contains | main.ts:108 | `includes` holds exactly when the pattern occurs at some offset. |
| Text.ToLower | main.ts:127-132 | `toLowerCase` keeps the length, lowers each capital letter to its small letter, keeps every other character, and leaves no capital letter. |
| Text.Trim | main.ts:126 | `trim` removes a leading and a trailing run of white space, and the result neither starts nor ends with white space. |
| Text.TrimIdempotent | main.ts:126 | Trimming twice is trimming once. |
| Text.TrimEmptyIffBlank | main.ts:181 | A string trims to nothing exactly when it is all white space. |
| Text.Split | main.ts:126 | `split(",")` gives at least one piece. No piece contains a comma, and joining the pieces with commas gives the string back. |
| Text.SplitJoin | main.ts:126 | Splitting comma-joined comma-free pieces gives the pieces back. |
| Text.NatToString | main.ts:164 | A count renders as decimal digits without a leading zero, and they denote the count. |
| Text.IntToString | main.ts:171 | A claimed count renders with a leading minus sign exactly when it is negative, followed by decimal digits without a leading zero whose value is its magnitude. |
| Text.IntToStringInjective | main.ts:171 | Distinct numbers render differently. |
| Classify.CategoriesAreAllDistinct | main.ts:115-124 | There are exactly eight keys, every bucket is among them, and their names are pairwise distinct. |
| Classify.NamesDiffer | main.ts:115-124 | Distinct buckets have distinct key names. |
| Classify.Position | main.ts:115-124 | Every bucket has a place in the key order, and the key at that place is the bucket. |
| Classify.IsDlc | main.ts:127 | A record is a DLC exactly when its type is defined and lowercases to "dlc". |
| Classify.PlatformTokens | main.ts:126 | One token per comma-separated piece of `platforms` (at least one). Each token is its piece with the surrounding white space cut, so it holds no comma and neither starts nor ends with white space. |
| Classify.MatchesRule | main.ts:132-155 | A bucket's platform test fires exactly when some token passes that bucket's per-token test: equal, after lowering, to "epic games store", "steam", "playstation 5" or "pc"; containing "xbox"; equal to "android" or "ios". DLCs and Other have no test. |
| Classify.Belongs | main.ts:127-158 | A DLC belongs to DLCs and to nothing else, and only DLCs are in DLCs. A record that is not a DLC belongs to a platform bucket exactly when some token passes that bucket's test (with `OtherIffNoRule` for Other). |
| Classify.SomeTokenIsAt | main.ts:132 | The `some(p => p.toLowerCase() === w)` scan succeeds exactly when some lowered token equals `w`. |
| Classify.SomeTokenIncludesAt | main.ts:144 | The Xbox scan succeeds exactly when some lowered token contains "xbox". |
| Classify.PushByPlatform | main.ts:131-158 | Each platform bucket grows by the record exactly when its own test fires, Other grows exactly when none fires, and DLCs is untouched. |
| Classify.PlatformPushedIsPushedOnto | main.ts:131-158 | For a non-DLC record, the platform tests push it onto exactly the buckets it belongs to. |
| Classify.PushGiveaway | main.ts:125-158 | One loop pass appends the record to exactly the buckets it belongs to and leaves the others unchanged. |
| Classify.ExtendBuckets | main.ts:125-160 | Buckets equal to the specification for a prefix, after one more pass, equal it for the longer prefix. |
| Classify.GroupByCustomCategories | main.ts:114-161 | Each of the eight result buckets is exactly the input filtered by that bucket's membership rule, in input order. |
| Classify.DlcOnlyInDlcs | main.ts:127-130 | A DLC record is in DLCs and in no other bucket, whatever its platforms. |
| Classify.EveryRecordClassified | main.ts:125-158 | Every input record is in at least one of the eight buckets. |
| Classify.OtherIffNoRule | main.ts:131-158 | A non-DLC record belongs to Other exactly when it belongs to none of the six platform buckets. |
| Classify.OtherIffNoPlatformBucket | main.ts:156-158 | A non-DLC input record is in the Other bucket exactly when it is in no platform bucket. |
| Classify.BucketIsOrderedSubsequence | main.ts:125-160 | Every bucket is an in-order subsequence of the input. It holds each record as often as the input does when the record belongs, and never otherwise. |
| Classify.SteamAndXboxExample | main.ts:126-150 | A record listed for "Steam, Xbox Series X" belongs to Steam and to Xbox, and not to Other. |
| Markdown.AppendBlock | main.ts:165-173 | One loop pass appends exactly the record's block: title, optional thumbnail, worth, optional published, ends and users lines, then the closing sections. |
| Markdown.FormatGiveawayMarkdown | main.ts:163-175 | The note is the header for the category and the record count, followed by one block per record in input order. |
| Markdown.HeaderCarriesCount | main.ts:164 | The note opens with `# {category} Giveaways ({digits})` and a blank line, where the digits denote the number of records. |
| Markdown.BlocksAppend | main.ts:165-174 | The blocks of two runs of records are the first run's blocks followed by the second's. |
| Markdown.BlocksOfOne | main.ts:165-174 | A single record contributes exactly its own block. |
| Markdown.BlockEndsWithRule | main.ts:172 | Every block ends with `---` and a blank line. |
| Markdown.RenderEndsWithRule | main.ts:163-175 | A note with at least one record ends with `---` and a blank line. |
| Markdown.OptionalLinesShownIff | main.ts:167-171 | The thumbnail, published and ends lines appear exactly when their field is defined and non-empty. The users line appears exactly when the count is defined. |
| Markdown.ThumbnailLineIff | main.ts:167 | The thumbnail line is `![Thumbnail](v)` exactly when the thumbnail is the non-empty `v`. |
| Markdown.DateLinesIff | main.ts:169-170 | The published and ends lines carry exactly their non-empty dates. |
| Markdown.UsersLineIff | main.ts:171 | The users line shows `n` exactly when the claimed count is `n`. |
| Markdown.ZeroUsersShown | main.ts:171 | A claimed count of 0 is still written. |
| Notes.ResolveFolder | main.ts:181 | The folder is never empty, neither starts nor ends with white space, and is the trimmed setting whenever that is non-blank. |
| Notes.ResolveFolderIdempotent | main.ts:181 | A resolved folder name has nothing left to trim and resolves to itself. |
| Notes.ResolveFolderBlank | main.ts:181 | The default folder is used exactly when the setting is all white space, or when it trims to the default name itself. |
| Notes.NotePath | main.ts:187 | A note's path is `{folder}/{category}.md`. |
| Notes.NotePathsDiffer | main.ts:187 | Distinct buckets have distinct note paths in the same folder. |
| Notes.ApplyAt | main.ts:189-195 | After a run of writes, each path holds its last write's content, and a path no write names is as it was. |
| Notes.ApplyAppend | main.ts:185-196 | Writes done in two runs equal the combined run. |
| Notes.ApplyIdempotent | main.ts:185-196 | Doing a refresh's writes twice leaves what doing them once leaves. |
| Notes.PlanForWrites | main.ts:185-196 | A non-empty bucket's note is the last write to its path. |
| Notes.PlanForSkips | main.ts:186 | A path that is no non-empty bucket's note is never written. |
| Notes.NoteWritten | main.ts:185-196 | After a refresh, each non-empty bucket's note exists and holds that bucket's formatted content, whether it was created or overwritten. |
| Notes.OtherPathsUnchanged | main.ts:185-196 | After a refresh, every path that is not a non-empty bucket's note is as it was. |
| Notes.EmptyBucketWritesNothing | main.ts:186 | An empty bucket produces no note: its path is as it was. |
| Notes.Vault.CreateFolder | main.ts:183 | Creating a folder fails when something already exists at the path; otherwise it adds exactly that folder. |
| Notes.Vault.IsFile | main.ts:189-191 | The `instanceof TFile` test holds exactly when a file, not a folder, holds the path. |
| Notes.Vault.Modify | main.ts:192 | Modifying replaces exactly that file's content. |
| Notes.Vault.Create | main.ts:194 | Creating a file fails when a file or folder exists at the path; otherwise it adds exactly that file. |
| Notes.WriteNote | main.ts:186-195 | One pass fails exactly when the bucket is non-empty and a folder sits at its note path; it then changes nothing. Otherwise it applies the bucket's write: nothing for an empty bucket, else the note with the bucket's formatted content. |
| Notes.WriteNotes | main.ts:185-196 | The loop fails exactly when some non-empty bucket's note path is a folder. On success the files are the old files with the whole plan applied. On failure there is such a blocked bucket, and the files have the writes of the buckets before it. Folders are unchanged either way. |
| Notes.CreateAndWrite | main.ts:183-196 | The folder is added unless a file holds its path. The refresh fails exactly when a folder that was already there blocks a non-empty bucket's note; on success the whole plan is applied, and on failure the plan up to the blocked bucket. |
| Notes.FetchAndCreateNotes | main.ts:178-197 | A non-array response changes nothing and fails. Otherwise, for the resolved folder and the classified, filtered records: the folder is added unless a file holds its path; the refresh succeeds exactly when no already-existing folder blocks a non-empty bucket's note; success applies the whole plan, and failure applies the plan up to a blocked bucket. Nothing is ever deleted. |
| Notes.NoDrmFreeInNotes | main.ts:107-108 | No note lists a record whose platforms contain "DRM-Free". |
| Settings.LoadSettings | main.ts:205-207 | Loading with no stored data gives the defaults. |
| Settings.StoredKeyWins | main.ts:31-38 | Each stored key overrides its default, and each missing key keeps the default value. |
| Settings.EmptyStoredIsDefault | main.ts:31-38 | An empty stored object loads as the defaults. |
| Settings.SaveSettings | main.ts:209-211 | Saving writes every key. |
| Settings.LoadAfterSave | main.ts:205-211 | Loading what was saved gives the saved settings back. |
| Schedule.NextThursdayAnchor | main.ts:76-80 | The target: the Thursday that the day arithmetic picks, at 18:04, moved on a week when it is not after now. NextThursdayAnchorBounds and NextThursdayAnchorIsEarliest state what it is. |
| Schedule.MsUntilAnchor | main.ts:81 | `msUntil`: the target minus now. MsUntilAnchorBounds bounds it. |
| Schedule.DaysUntilThursday | main.ts:78 | `(4 + 7 - day) % 7` is between 0 and 6 and lands on Thursday. |
| Schedule.DayOfWeek | main.ts:78 | `getDay()` of a day counted from 1970-01-01 lies between 0 and 6. |
| Schedule.WeekdaysFromEpoch | main.ts:78 | A day is a Thursday exactly when it is a multiple of seven days from 1970-01-01, and a Sunday exactly when it is three more than such a multiple. |
| Schedule.AnchorIsWeekPhase | main.ts:76-80 | A time is a Thursday at 18:04 exactly when it lies 18:04 into a week counted from 1970-01-01. |
| Schedule.AnchorWeekLater | main.ts:80 | The `+7 days` correction keeps the target a Thursday at 18:04. |
| Schedule.NextThursdayAnchorBounds | main.ts:76-81 | The target is a Thursday at 18:04, strictly after now and at most one week later. |
| Schedule.MsUntilAnchorBounds | main.ts:81 | `msUntil` lies in (0, 7 days]. |
| Schedule.NextThursdayAnchorIsEarliest | main.ts:76-80 | No Thursday 18:04 lies strictly between now and the target. |
| Schedule.AnchorNowWaitsAWeek | main.ts:80 | When now is itself Thursday 18:04, the target is a full week later. |
| Schedule.FridayWaitsSixDays | main.ts:78-79 | Friday 1970-01-02 at noon waits for Thursday 1970-01-08 at 18:04. |
| Schedule.PluginTimers.constructor | main.ts:42-44 | The plugin starts with all three handles null and no timer armed. |
| Schedule.PluginTimers.Arm | main.ts:82-97 | `setTimeout`/`setInterval` arm the timer under the next id, one no armed timer holds, and leave the handles alone. |
| Schedule.PluginTimers.Clear | main.ts:69-71 | `clearTimeout`/`clearInterval` disarm exactly that id and leave the handles alone. |
| Schedule.PluginTimers.ScheduleAutoUpdate | main.ts:74-93 | With the weekly schedule, the method arms a timeout lasting `msUntil` and keeps it in `timeoutHandle`. Otherwise it arms an interval of `updateIntervalHours` hours and keeps it in `intervalHandle`. |
| Schedule.PluginTimers.ScheduleDailyUpdate | main.ts:95-98 | The method arms an interval of `dailyUpdateInterval` hours and keeps it in `dailyHandle`. |
| Schedule.PluginTimers.OnLoad | main.ts:57-63 | A handle is set exactly when its setting enables it, and the armed timers are exactly the held handles. The weekly handle holds a `msUntil` timeout that starts the weekly interval; the interval handle holds an `updateIntervalHours`-hour refresh and the daily handle a `dailyUpdateInterval`-hour refresh. The daily timer is armed separately from the auto-update timer, so it is held under a different id. |
| Schedule.PluginTimers.FireWeeklyTimeout | main.ts:82-88 | The fired timeout is disarmed, and a 7-day interval is armed and kept in `intervalHandle`. |
| Schedule.PluginTimers.OnUnload | main.ts:68-72 | Every held handle is cleared, and no timer is left armed. |

## Left out

- The HTTP `request`, `JSON.parse` and the wrapping of errors into "Failed to fetch giveaways". They are network I/O and a foreign parser. A response enters the model already parsed, as an array of records or "not an array".
- Records whose `platforms` is missing or not a string, on which `includes` and `split` would throw. Such a record is not modelled. Neither are JSON `null` values for optional fields, numbers that are not integers, or the fields the plugin never reads.
- The `Notice` messages and `console.error`, which are host UI and logging. A refresh's outcome is `Updated` or `Failed`.
- The settings tab, `addCommand`, `addSettingTab`, and `loadData`/`saveData` persistence, which are host plugin APIs. Stored data enters as a value with optional keys. Keys outside the six settings, and values of the wrong type, are not modelled.
- The firing of timers by the host, and the refresh each timer callback starts. The refresh itself is `Notes.FetchAndCreateNotes`. Refreshes that overlap in time are concurrency and are not modelled.
- Time zones, daylight saving and calendar rollover in JavaScript `Date`. The clock is local milliseconds since 1970-01-01 with 24-hour days. The settings text mentions Israel time, but the code uses local time.
- Unicode `toLowerCase` and `trim`. Only ASCII letters are lowered, and only ASCII white space is trimmed.
- Host checks that the vault performs beyond "something already exists at this path". These include a missing parent folder and invalid file names.
- `Schedule.PluginTimers.ScheduleAutoUpdate`: requires that no auto-update handle is held. `onload` calls it only once, on fresh fields. Calling it again would overwrite a live handle, and the plugin never does so.
- Text.IntToString: renders every integer in plain decimal. JavaScript writes numbers of magnitude 1e21 or more in exponent form ("1e+21"), and `JSON.parse` has already rounded integers beyond 2^53 before `${g.users}` renders them; neither is modelled.
- The refresh that `onload` starts after arming the timers (main.ts:65) is not part of `Schedule.PluginTimers.OnLoad`; it is the same `Notes.FetchAndCreateNotes` run.
- `main.js`, the bundled copy of `main.ts`, and `rollup.config.js`, which is build configuration.
