/** The plugin's settings and the `loadSettings` merge over the defaults. */
module Settings {
  import opened Wrappers

  datatype Settings = Settings(
    folderName: string,
    autoUpdate: bool,
    updateIntervalHours: int,
    epicScheduled: bool,
    dailyUpdateEnabled: bool,
    dailyUpdateInterval: int)

  const DefaultSettings := Settings("Game Giveaways", false, 24, false, false, 6)

  /** The object `loadData` returns: each key may be missing. */
  datatype StoredData = StoredData(
    folderName: Option<string>,
    autoUpdate: Option<bool>,
    updateIntervalHours: Option<int>,
    epicScheduled: Option<bool>,
    dailyUpdateEnabled: Option<bool>,
    dailyUpdateInterval: Option<int>)

  function Or<T>(stored: Option<T>, default: T): T {
    if stored.Some? then stored.value else default
  }

  /** `Object.assign({}, DEFAULT_SETTINGS, await this.loadData())`: a key
      the stored object defines wins, each other key keeps its default;
      no stored data at all (`null`) leaves every default. */
  function LoadSettings(data: Option<StoredData>): (r: Settings)
    ensures data.None? ==> r == DefaultSettings
  {
    if data.None? then DefaultSettings
    else
      var d := data.value;
      Settings(
        Or(d.folderName, DefaultSettings.folderName),
        Or(d.autoUpdate, DefaultSettings.autoUpdate),
        Or(d.updateIntervalHours, DefaultSettings.updateIntervalHours),
        Or(d.epicScheduled, DefaultSettings.epicScheduled),
        Or(d.dailyUpdateEnabled, DefaultSettings.dailyUpdateEnabled),
        Or(d.dailyUpdateInterval, DefaultSettings.dailyUpdateInterval))
  }

  /** `saveData(this.settings)`: every key written. */
  function SaveSettings(s: Settings): (d: StoredData)
    ensures d.folderName.Some? && d.autoUpdate.Some? && d.updateIntervalHours.Some?
    ensures d.epicScheduled.Some? && d.dailyUpdateEnabled.Some? && d.dailyUpdateInterval.Some?
  {
    StoredData(Some(s.folderName), Some(s.autoUpdate), Some(s.updateIntervalHours),
               Some(s.epicScheduled), Some(s.dailyUpdateEnabled), Some(s.dailyUpdateInterval))
  }

  /** Loading what was saved gives the saved settings back. */
  lemma LoadAfterSave(s: Settings)
    ensures LoadSettings(Some(SaveSettings(s))) == s
  {
  }

  /** A stored key overrides its default and a missing key keeps it; the
      folder name is shown for the key the writer reads, the other keys
      follow the same rule. */
  lemma StoredKeyWins(d: StoredData)
    ensures LoadSettings(Some(d)).folderName == (if d.folderName.Some? then d.folderName.value else "Game Giveaways")
    ensures LoadSettings(Some(d)).autoUpdate == (d.autoUpdate == Some(true))
    ensures LoadSettings(Some(d)).updateIntervalHours == (if d.updateIntervalHours.Some? then d.updateIntervalHours.value else 24)
    ensures LoadSettings(Some(d)).epicScheduled == (d.epicScheduled == Some(true))
    ensures LoadSettings(Some(d)).dailyUpdateEnabled == (d.dailyUpdateEnabled == Some(true))
    ensures LoadSettings(Some(d)).dailyUpdateInterval == (if d.dailyUpdateInterval.Some? then d.dailyUpdateInterval.value else 6)
  {
  }

  /** An empty stored object loads as the defaults, like no data at all. */
  lemma EmptyStoredIsDefault()
    ensures LoadSettings(Some(StoredData(None, None, None, None, None, None))) == DefaultSettings
  {
  }
}
