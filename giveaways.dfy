/** The giveaway record the listing endpoint returns, and the filter
    `fetchGiveaways` applies to the parsed response. */
module Giveaways {
  import opened Wrappers
  import opened Text
  import opened Seqs

  /** One entry of the listing. Optional fields are `None` when the JSON
      object lacks them. The fields the plugin never reads (`image`,
      `status`, `gamerpower_url`, `open_giveaway`) are not kept. */
  datatype Giveaway = Giveaway(
    id: int,
    title: string,
    worth: string,
    thumbnail: Option<string>,
    description: string,
    instructions: string,
    openGiveawayUrl: string,
    publishedDate: Option<string>,
    giveawayType: Option<string>,
    platforms: string,
    endDate: Option<string>,
    users: Option<int>)

  /** The result of `JSON.parse` on the response body, as far as the plugin
      inspects it: either not an array, or an array of records. */
  datatype ParsedResponse = NotAnArray | Records(items: seq<Giveaway>)

  datatype FetchError = UnexpectedResponseFormat

  const DrmFreeTag := "DRM-Free"

  /** `g.platforms.includes("DRM-Free")`, case-sensitive. */
  function IsDrmFree(g: Giveaway): (r: bool)
    ensures r <==> exists i :: OccursAt(g.platforms, DrmFreeTag, i)
  {
    Contains(g.platforms, DrmFreeTag)
  }

  /** What `fetchGiveaways` returns once the body is parsed: an error for a
      non-array, otherwise the records without a "DRM-Free" platform, in
      their original order and multiplicity. */
  function FilterResponse(response: ParsedResponse): (r: Result<seq<Giveaway>, FetchError>)
    ensures r.Failure? <==> response.NotAnArray?
    ensures r.Success? ==>
      (forall g :: g in r.value <==> g in response.items && !IsDrmFree(g))
      && (forall g :: multiset(r.value)[g] == if IsDrmFree(g) then 0 else multiset(response.items)[g])
      && IsSubsequence(r.value, response.items)
  {
    match response
    case NotAnArray => Failure(UnexpectedResponseFormat)
    case Records(items) =>
      var keep := (g: Giveaway) => !IsDrmFree(g);
      FilterIsSubsequence(items, keep);
      assert forall g :: multiset(Filter(items, keep))[g] == if IsDrmFree(g) then 0 else multiset(items)[g] by {
        forall g { FilterCount(items, keep, g); }
      }
      assert forall g :: g in Filter(items, keep) <==> g in items && !IsDrmFree(g) by {
        forall g { FilterMembers(items, keep, g); }
      }
      Success(Filter(items, keep))
  }
}
