/** Grouping records (repos) and the find-or-create lookup a Binary uses to
    attach itself to the repo of its (ref, distro, distro_version, project). */
module Repos {
  import opened Values

  /** A project is known here only by its identity. */
  type ProjectId = nat

  /** A repo. `id` is `Some` once the persistence layer has stored it and
      `None` for one built in memory and not yet written. */
  datatype Repo = Repo(
    id: Option<nat>,
    project: ProjectId,
    ref: Value,
    distro: Value,
    distroVersion: Value)

  /** The four values a repo is looked up by. A `Null` ref is a value of its
      own: it matches only repos whose ref is also `Null`. */
  datatype RepoKey = RepoKey(ref: Value, distro: Value, distroVersion: Value, project: ProjectId)

  function KeyOf(r: Repo): RepoKey
  {
    RepoKey(r.ref, r.distro, r.distroVersion, r.project)
  }

  predicate HasMatch(repos: seq<Repo>, key: RepoKey)
  {
    exists j :: 0 <= j < |repos| && KeyOf(repos[j]) == key
  }

  /** The position of the first stored repo whose key equals `key`: the row
      the filtered query's `.first()` returns, taking the sequence order as
      the order the query yields rows in. */
  function FirstMatch(repos: seq<Repo>, key: RepoKey): (r: Option<nat>)
    ensures r.Some? ==> r.value < |repos| && KeyOf(repos[r.value]) == key
    ensures r.Some? ==> forall j :: 0 <= j < r.value ==> KeyOf(repos[j]) != key
    ensures r.None? <==> !HasMatch(repos, key)
  {
    if repos == [] then None
    else if KeyOf(repos[0]) == key then Some(0)
    else
      match FirstMatch(repos[1..], key)
      case None =>
        assert forall j :: 1 <= j < |repos| ==> repos[j] == repos[1..][j - 1];
        None
      case Some(i) =>
        assert forall j :: 1 <= j <= i ==> repos[j] == repos[1..][j - 1];
        Some(i + 1)
  }

  /** Find-or-create: the first stored repo with the given key, or else a
      fresh, not yet stored repo built from that key. Nothing is stored here;
      the fresh repo is written together with the binary that refers to it. */
  function GetOrCreateRepo(repos: seq<Repo>, key: RepoKey): (r: Repo)
    ensures KeyOf(r) == key
    ensures r in repos <==> HasMatch(repos, key)
    ensures HasMatch(repos, key) ==>
      exists i :: 0 <= i < |repos| && r == repos[i] &&
        forall j :: 0 <= j < i ==> KeyOf(repos[j]) != key
    ensures !HasMatch(repos, key) ==> r.id == None
  {
    match FirstMatch(repos, key)
    case Some(i) => repos[i]
    case None => Repo(None, key.project, key.ref, key.distro, key.distroVersion)
  }

  /** Looking up a repo that the previous lookup would have created finds
      nothing new to build once that repo is stored: the same key now resolves
      to a stored repo with that key, and no second repo is created for it. */
  lemma {:induction false} StoredRepoIsFound(repos: seq<Repo>, key: RepoKey, id: nat)
    requires !HasMatch(repos, key)
    ensures var stored := GetOrCreateRepo(repos, key).(id := Some(id));
      GetOrCreateRepo(repos + [stored], key) == stored
  {
    var stored := GetOrCreateRepo(repos, key).(id := Some(id));
    var after := repos + [stored];
    assert after[|repos|] == stored;
    assert forall j :: 0 <= j < |repos| ==> after[j] == repos[j];
  }

  /** No two stored repos share a key. */
  predicate UniqueKeys(repos: seq<Repo>)
  {
    forall i, j :: 0 <= i < j < |repos| ==> KeyOf(repos[i]) != KeyOf(repos[j])
  }

  /** Find-before-create keeps one repo per key: storing what find-or-create
      returns, when it is a new repo, never adds a second repo for a key. */
  lemma StoreKeepsKeysUnique(repos: seq<Repo>, key: RepoKey, id: nat)
    requires UniqueKeys(repos)
    ensures var r := GetOrCreateRepo(repos, key);
      UniqueKeys(if r in repos then repos else repos + [r.(id := Some(id))])
  {
  }
}
