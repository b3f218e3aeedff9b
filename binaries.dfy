/** The Binary artifact record: its construction, the allow-listed update
    from a JSON payload, its derived values and the two hooks that run
    before every insert and update. */
module Binaries {
  import opened Values
  import opened Repos
  import opened Checksums

  /** The attributes a keyword map or a JSON payload may set, in the order
      they are copied. */
  const AllowedKeys: seq<string> :=
    ["path", "distro", "distro_version", "arch", "ref", "built_by", "size"]

  /** The keys of the serialized record. */
  const SerializedKeys: set<string> :=
    {"name", "created", "modified", "signed", "size", "path", "last_changed",
     "built_by", "distro", "distro_version", "checksum", "arch", "ref"}

  /** The allow-listed attributes of a record that nothing has assigned yet:
      an unset column reads as `None`. */
  const Unset: map<string, Value> :=
    map["path" := Null, "distro" := Null, "distro_version" := Null, "arch" := Null,
        "ref" := Null, "built_by" := Null, "size" := Null]

  /** The allow-listed attributes `attrs` after copying, for every key of
      `keys` that `data` holds, the payload's value; everything else keeps its
      value. */
  function Overlay(attrs: map<string, Value>, data: map<string, Value>, keys: seq<string>): map<string, Value>
  {
    map k | k in attrs :: if k in keys && k in data then data[k] else attrs[k]
  }

  /** Copying one more key extends the overlay by that key alone. */
  lemma OverlayStep(attrs: map<string, Value>, data: map<string, Value>, keys: seq<string>, key: string)
    requires key in attrs
    ensures Overlay(attrs, data, keys + [key])
         == if key in data then Overlay(attrs, data, keys)[key := data[key]] else Overlay(attrs, data, keys)
  {
  }

  /** The file system the checksum hook reads from: path to contents. */
  type FileSystem = map<string, seq<byte>>

  class Binary {
    var name: string
    var project: ProjectId
    var path: Value
    var ref: Value
    var distro: Value
    var distroVersion: Value
    var arch: Value
    var builtBy: Value
    var size: Value
    var created: int
    var modified: int
    var signed: Value
    var checksum: Value
    var repo: Option<Repo>

    /** The allow-listed attributes, by their payload key. */
    function Attributes(): (m: map<string, Value>)
      reads this
      ensures m.Keys == Unset.Keys
    {
      map["path" := path, "distro" := distro, "distro_version" := distroVersion,
          "arch" := arch, "ref" := ref, "built_by" := builtBy, "size" := size]
    }

    /** The key this record's repo is looked up by. */
    function RepoKeyOf(): (k: RepoKey)
      reads this
    {
      RepoKey(ref, distro, distroVersion, project)
    }

    /** Creation: stamp both timestamps with `now`, copy the allow-listed
        keys of `kw`, then take the supplied repo or find-or-create one
        among `repos`, the repos already stored. */
    constructor (name: string, project: ProjectId, repo: Option<Repo>, kw: map<string, Value>,
                 now: int, repos: seq<Repo>)
      ensures this.name == name && this.project == project
      ensures created == now && modified == now
      ensures Attributes() == Overlay(Unset, kw, AllowedKeys)
      ensures signed == Null && checksum == Null
      ensures repo.Some? ==> this.repo == repo
      ensures repo.None? ==> this.repo == Some(GetOrCreateRepo(repos, RepoKeyOf()))
    {
      this.name := name;
      this.project := project;
      created := now;
      modified := now;
      path, ref, distro, distroVersion := Null, Null, Null, Null;
      arch, builtBy, size := Null, Null, Null;
      signed, checksum := Null, Null;
      this.repo := None;
      new;
      UpdateFromJson(kw);
      this.repo := if repo.Some? then repo else Some(GetOrCreateRepo(repos, RepoKeyOf()));
    }

    /** `setattr(self, key, v)` for an allow-listed key. */
    method SetAttr(key: string, v: Value)
      requires key in Unset
      modifies this
      ensures Attributes() == old(Attributes())[key := v]
      ensures name == old(name) && project == old(project) && repo == old(repo)
      ensures created == old(created) && modified == old(modified)
      ensures signed == old(signed) && checksum == old(checksum)
    {
      match key
      case "path" => path := v;
      case "distro" => distro := v;
      case "distro_version" => distroVersion := v;
      case "arch" => arch := v;
      case "ref" => ref := v;
      case "built_by" => builtBy := v;
      case "size" => size := v;
    }

    /** `update_from_json`, and the same loop in construction: for each
        allow-listed key the payload holds, overwrite that attribute; the
        name, project, repo, timestamps, `signed` and `checksum` are
        untouched. */
    method UpdateFromJson(data: map<string, Value>)
      modifies this
      ensures Attributes() == Overlay(old(Attributes()), data, AllowedKeys)
      ensures name == old(name) && project == old(project) && repo == old(repo)
      ensures created == old(created) && modified == old(modified)
      ensures signed == old(signed) && checksum == old(checksum)
    {
      ghost var before := Attributes();
      for i := 0 to |AllowedKeys|
        invariant Attributes() == Overlay(before, data, AllowedKeys[..i])
        invariant name == old(name) && project == old(project) && repo == old(repo)
        invariant created == old(created) && modified == old(modified)
        invariant signed == old(signed) && checksum == old(checksum)
      {
        var key := AllowedKeys[i];
        assert AllowedKeys[..i + 1] == AllowedKeys[..i] + [key];
        OverlayStep(before, data, AllowedKeys[..i], key);
        if key in data {
          SetAttr(key, data[key]);
        }
      }
      assert AllowedKeys[..|AllowedKeys|] == AllowedKeys;
    }

    /** The instant `last_changed` renders: the later of `modified` and
        `created`, and `created` when they are equal. */
    function LastChanged(): (t: int)
      reads this
      ensures t >= created && t >= modified
      ensures t == modified || t == created
      ensures modified <= created ==> t == created
    {
      if modified > created then modified else created
    }

    /** `__json__`, with `lastSeen` the external relative-time formatter. */
    function ToJson(lastSeen: int -> string): (m: map<string, Value>)
      reads this
      ensures m.Keys == SerializedKeys
      ensures forall k :: k in Unset ==> k in m && m[k] == Attributes()[k]
      ensures m["name"] == Str(name) && m["signed"] == signed && m["checksum"] == checksum
      ensures m["created"] == Time(created) && m["modified"] == Time(modified)
      ensures m["last_changed"] == Str(lastSeen(LastChanged()))
    {
      map["name" := Str(name), "created" := Time(created), "modified" := Time(modified),
          "signed" := signed, "size" := size, "path" := path,
          "last_changed" := Str(lastSeen(LastChanged())), "built_by" := builtBy,
          "distro" := distro, "distro_version" := distroVersion, "checksum" := checksum,
          "arch" := arch, "ref" := ref]
    }

    /** The `generate_checksum` hook. A falsy path leaves the checksum as it
        was. Otherwise the file at `path` is digested chunk by chunk and the
        hex digest stored; a path that does not name a readable file is an
        I/O error (`ok` false), which aborts the write with the checksum
        unchanged. */
    method GenerateChecksum<S>(h: Hasher<S>, fs: FileSystem) returns (ok: bool)
      modifies this`checksum
      ensures !Truthy(path) ==> ok && checksum == old(checksum)
      ensures Truthy(path) ==> (ok <==> path.Str? && path.s in fs)
      ensures ok && Truthy(path) ==> checksum == Str(FileDigest(h, fs[path.s]))
      ensures !ok ==> checksum == old(checksum)
    {
      if !Truthy(path) {
        return true;
      }
      if !(path.Str? && path.s in fs) {
        return false;
      }
      var hex := DigestFile(h, fs[path.s]);
      checksum := Str(hex);
      ok := true;
    }

    /** The `update_timestamp` hook. */
    method UpdateTimestamp(now: int)
      modifies this`modified
      ensures modified == now
      ensures now >= created ==> modified >= created
    {
      modified := now;
    }

    /** What runs before every insert and every update: the checksum hook,
        then the timestamp hook, in the order they are registered. An I/O
        error in the first aborts the write before the second runs. */
    method BeforeWrite<S>(h: Hasher<S>, fs: FileSystem, now: int) returns (ok: bool)
      modifies this`checksum, this`modified
      ensures ok <==> !Truthy(path) || (path.Str? && path.s in fs)
      ensures ok ==> modified == now
      ensures ok && Truthy(path) ==> checksum == Str(FileDigest(h, fs[path.s]))
      ensures !Truthy(path) ==> checksum == old(checksum)
      ensures !ok ==> checksum == old(checksum) && modified == old(modified)
      ensures ok && now >= created ==> modified >= created
    {
      ok := GenerateChecksum(h, fs);
      if ok {
        UpdateTimestamp(now);
      }
    }
  }

  /** A payload key outside the allow-list has no effect: the overlay of a
      payload equals the overlay of its allow-listed part alone. */
  lemma OtherKeysIgnored(attrs: map<string, Value>, data: map<string, Value>)
    ensures Overlay(attrs, data, AllowedKeys)
         == Overlay(attrs, map k | k in data && k in AllowedKeys :: data[k], AllowedKeys)
  {
  }

  /** Only allow-listed keys present in the payload change; the set of
      attributes stays the same. */
  lemma OverlayChangesOnlyPayloadKeys(attrs: map<string, Value>, data: map<string, Value>)
    ensures Overlay(attrs, data, AllowedKeys).Keys == attrs.Keys
    ensures forall k :: k in attrs && (k !in data || k !in AllowedKeys) ==>
      Overlay(attrs, data, AllowedKeys)[k] == attrs[k]
    ensures forall k :: k in attrs && k in data && k in AllowedKeys ==>
      Overlay(attrs, data, AllowedKeys)[k] == data[k]
  {
  }

  /** Applying the same payload twice gives what applying it once gives. */
  lemma OverlayIdempotent(attrs: map<string, Value>, data: map<string, Value>)
    ensures Overlay(Overlay(attrs, data, AllowedKeys), data, AllowedKeys)
         == Overlay(attrs, data, AllowedKeys)
  {
  }

  /** Feeding a record its own serialization as an update payload changes
      nothing: every allow-listed key is serialized with its current value. */
  lemma SerializedPayloadIsNoOp(b: Binary, lastSeen: int -> string)
    ensures Overlay(b.Attributes(), b.ToJson(lastSeen), AllowedKeys) == b.Attributes()
  {
  }

  /** A record's life up to its first write: created at `createdAt` from the
      keyword map `kw`, then inserted at `insertedAt`, which runs both hooks. */
  method CreateThenInsert<S>(name: string, project: ProjectId, repo: Option<Repo>,
                             kw: map<string, Value>, repos: seq<Repo>,
                             createdAt: int, insertedAt: int, h: Hasher<S>, fs: FileSystem)
    returns (b: Binary, ok: bool)
    ensures fresh(b)
    ensures b.Attributes() == Overlay(Unset, kw, AllowedKeys) && b.created == createdAt
    ensures b.repo.Some? && (repo.None? ==> KeyOf(b.repo.value) == b.RepoKeyOf())
    ensures ok ==> b.modified == insertedAt
    ensures ok && createdAt <= insertedAt ==> b.created <= b.modified
    ensures "path" !in kw ==> ok && b.checksum == Null
    ensures "path" in kw && kw["path"].Str? && kw["path"].s in fs ==>
      ok && b.checksum == if kw["path"].s == "" then Null else Str(FileDigest(h, fs[kw["path"].s]))
  {
    b := new Binary(name, project, repo, kw, createdAt, repos);
    assert b.Attributes()["path"] == b.path;
    ok := b.BeforeWrite(h, fs, insertedAt);
  }
}
