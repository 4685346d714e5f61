/** Resolution of a `--repo` name filter against the project's repository list, done the
    same way in scripts/pr-metrics.mjs and scripts/contributors.mjs. */
module Repos {
  import opened Wrappers
  import opened Text

  datatype Repo = Repo(id: string, name: string)

  /** The `not_found` error carries every repository name, in list order. */
  datatype NotFound = NotFound(filter: string, availableRepos: seq<string>)

  predicate NameMatches(r: Repo, filter: string) {
    ToLower(r.name) == ToLower(filter)
  }

  function Names(repos: seq<Repo>): (names: seq<string>)
    ensures |names| == |repos|
    ensures forall i :: 0 <= i < |repos| ==> names[i] == repos[i].name
  {
    if repos == [] then [] else Names(repos[..|repos| - 1]) + [repos[|repos| - 1].name]
  }

  /** `repos.find(...)`: the position of the first case-insensitive exact match. */
  function FindRepo(repos: seq<Repo>, filter: string): (r: Option<nat>)
    ensures r.None? <==> forall i :: 0 <= i < |repos| ==> !NameMatches(repos[i], filter)
    ensures r.Some? ==> r.value < |repos| && NameMatches(repos[r.value], filter)
                        && forall i :: 0 <= i < r.value ==> !NameMatches(repos[i], filter)
  {
    if repos == [] then None
    else if NameMatches(repos[0], filter) then Some(0)
    else match FindRepo(repos[1..], filter)
      case None => None
      case Some(k) => Some(k + 1)
  }

  /** The repository list after the filter of scripts/contributors.mjs: unchanged without a
      filter (an empty one counts as absent), the single match with one, and otherwise the
      `not_found` error listing every name. */
  function NarrowRepos(repos: seq<Repo>, filter: Option<string>): (r: Result<seq<Repo>, NotFound>)
    ensures filter.None? || filter.value == [] ==> r == Ok(repos)
    ensures filter.Some? && filter.value != [] ==>
      match FindRepo(repos, filter.value)
      case None => r == Err(NotFound(filter.value, Names(repos)))
      case Some(k) => r == Ok([repos[k]])
  {
    if filter.None? || filter.value == [] then Ok(repos)
    else match FindRepo(repos, filter.value)
      case None => Err(NotFound(filter.value, Names(repos)))
      case Some(k) => Ok([repos[k]])
  }

  /** The repository id of scripts/pr-metrics.mjs: none without a filter (project-wide
      retrieval), the first match's id, or the same `not_found` error. */
  function ResolveRepoId(repos: seq<Repo>, filter: Option<string>): (r: Result<Option<string>, NotFound>)
    ensures r.Ok? ==> (r.value.Some? <==> filter.Some? && filter.value != [])
    ensures r.Ok? && r.value.Some? && filter.Some? ==>
      exists i :: 0 <= i < |repos| && repos[i].id == r.value.value && NameMatches(repos[i], filter.value)
    ensures r.Err? <==> filter.Some? && filter.value != [] && forall i :: 0 <= i < |repos| ==> !NameMatches(repos[i], filter.value)
    ensures r.Err? ==> r.error.availableRepos == Names(repos)
  {
    match NarrowRepos(repos, filter)
    case Err(e) => Err(e)
    case Ok(narrowed) =>
      if filter.None? || filter.value == [] then Ok(None) else Ok(Some(narrowed[0].id))
  }

  /** Matching ignores ASCII case on both sides. */
  lemma NameMatchIgnoresCase(r: Repo, filter: string)
    ensures NameMatches(r, filter) <==> NameMatches(r, ToLower(filter))
  {
    ToLowerIdempotent(filter);
  }
}
