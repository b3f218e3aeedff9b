# chacra binary records, in Dafny

A model of chacra's `Binary` record. chacra stores metadata about built
package files. A `Binary` is one artifact: its name, project, allow-listed
attributes (path, distro, distro_version, arch, ref, built_by, size),
timestamps, `signed` flag and content checksum. It belongs to a `Repo`, the
grouping of artifacts by (ref, distro, distro_version, project).

The model covers four things:

- Construction stamps `created` and `modified` with the same instant. It
  copies only the allow-listed keyword arguments, then takes the supplied
  repo or runs find-or-create over the stored repos.
- `update_from_json` overwrites exactly the allow-listed keys the payload
  holds.
- Two derived values: `last_changed`, the later of the two timestamps, and
  the 13-key serialization.
- The two hooks that run before every insert and update. The checksum hook
  feeds the file at `path` to an incremental digest in chunks of at most 4096
  bytes. The timestamp hook sets `modified` to the current instant.

Files:

- `values.dfy`: `Option`, the dynamically typed `Value` a payload carries,
  and Python truthiness.
- `repos.dfy`: `Repo`, its lookup key, the first-match query and
  find-or-create.
- `checksums.dfy`: the chunked read loop and the digest fold. The digest is a
  parameter `Hasher<S>` (initial state, update, hex rendering).
- `binaries.dfy`: the `Binary` class, its hooks and the lemmas about the
  allow-list merge.

The clock (`datetime.utcnow()`), the file system, the relative-time formatter
`util.last_seen` and the SHA-512 algorithm are parameters. The repo table is
a sequence of stored repos, in the order the query yields them.

Two facts about the code that the model keeps:

- Creation does not check that `distro`, `distro_version` and `arch` are
  set. `nullable=False` is enforced only when the row is written.
- A falsy `path` leaves an earlier checksum in place, so a record can keep a
  checksum for a path it no longer has. `CreateThenInsert` shows that a
  record whose path was never set has no checksum.

## Model

| member | source | states |
|---|---|---|
| `Repos.FirstMatch` | chacra/models/binaries.py:62-66 | the position of a stored repo matching on ref, distro, distro_version and project, with no match before it; none exactly when no stored repo matches |
| `Repos.GetOrCreateRepo` | chacra/models/binaries.py:56-77 | the result always has the binary's four key values; it is a stored repo exactly when one matches, and then it is the first match; otherwise it is a new, unstored repo |
| `Repos.StoredRepoIsFound` | chacra/models/binaries.py:62-75 | once the repo built by find-or-create is stored, the same key finds that repo, so no second repo is built for it |
| `Repos.StoreKeepsKeysUnique` | chacra/models/binaries.py:62-77 | if the stored repos have distinct keys, storing the result of find-or-create when it is new keeps them distinct: one repo per key |
| `Checksums.Read` | chacra/models/binaries.py:138 | one `read(4096)` returns the next bytes of the file, at most 4096 of them, and is empty exactly at end of file |
| `Checksums.Chunks` | chacra/models/binaries.py:138 | the chunks the read loop yields are non-empty and at most 4096 long, all but the last exactly 4096, and they concatenate to the file contents |
| `Checksums.DigestFile` | chacra/models/binaries.py:136-140 | the read-until-empty loop returns the hex digest of the digest state after feeding the file's chunks in order |
| `Checksums.FoldIsOneUpdate` | chacra/models/binaries.py:136-139 | for a digest whose state depends only on the bytes fed, feeding chunks one by one equals one update with their concatenation |
| `Checksums.DigestIsOfWholeFile` | chacra/models/binaries.py:136-140 | for such a digest the stored checksum is the digest of the exact file bytes, independent of the chunking |
| `Binaries.Binary.Attributes` | chacra/models/binaries.py:35-43 | a record's allow-listed attributes are exactly the seven keys path, distro, distro_version, arch, ref, built_by, size |
| `Binaries.Binary.constructor` | chacra/models/binaries.py:45-54 | `created == modified == now`; the allow-listed attributes are the keyword values where given and unset (None) otherwise; other keywords are ignored; the repo is the supplied one, or find-or-create on the record's own key |
| `Binaries.Binary.SetAttr` | chacra/models/binaries.py:92 | assigning one allow-listed attribute changes that attribute only |
| `Binaries.Binary.UpdateFromJson` | chacra/models/binaries.py:85-92 | the allow-listed attributes become the overlay of the payload's allow-listed keys; name, project, repo, timestamps, signed and checksum are unchanged |
| `Binaries.OverlayStep` | chacra/models/binaries.py:90-92 | copying one more allow-listed key changes only that key |
| `Binaries.OtherKeysIgnored` | chacra/models/binaries.py:90-92 | payload keys outside the allow-list have no effect |
| `Binaries.OverlayChangesOnlyPayloadKeys` | chacra/models/binaries.py:85-92 | only allow-listed keys present in the payload change, and they take the payload's value; the attribute set is unchanged |
| `Binaries.OverlayIdempotent` | chacra/models/binaries.py:85-92 | applying the same payload twice gives the same attributes as applying it once |
| `Binaries.Binary.LastChanged` | chacra/models/binaries.py:94-100 | the instant rendered is at least both timestamps, is one of them, and is `created` when `modified` is not later |
| `Binaries.Binary.ToJson` | chacra/models/binaries.py:102-117 | the serialization has exactly the 13 documented keys, each holding the corresponding field, with last_changed rendered from `LastChanged` |
| `Binaries.SerializedPayloadIsNoOp` | chacra/models/binaries.py:102-117 | a record's own serialization, applied as an update payload, changes none of its attributes |
| `Binaries.Binary.GenerateChecksum` | chacra/models/binaries.py:123-140 | a falsy path leaves the checksum unchanged; a readable path stores the hex digest of its chunked contents; an unreadable one is an error that leaves the checksum unchanged |
| `Binaries.Binary.UpdateTimestamp` | chacra/models/binaries.py:143-147 | `modified` becomes `now`, and stays at or after `created` when `now` is |
| `Binaries.Binary.BeforeWrite` | chacra/models/binaries.py:150-157 | the hooks that run on insert and on update: the checksum hook, then, unless it failed, the timestamp hook; a failure changes nothing |
| `Binaries.CreateThenInsert` | chacra/models/binaries.py:45-157 | after creation and first insert: with no path the checksum is None; with a readable path it is that file's digest; `created <= modified` when the insert comes no earlier than creation |

## Left out

- The attribute-missing branch of `generate_checksum` (chacra/models/binaries.py:124-128) is not modelled. It cannot happen for a `Binary`, because an unassigned mapped column reads as None rather than raising. A never-set path therefore reaches the falsy-path branch. The checksum is still None then, because nothing ever assigned it.
- SQLAlchemy column declarations, `relationship`/`backref`, and the `listen` registration are not modelled. The hooks are methods the writer calls before a write; `BeforeWrite` is that call for both insert and update.
- Column defaults (`signed=False`, `size=0`) are client-side defaults that SQLAlchemy fills in when it builds the INSERT. Before the write the attributes read None, which is what the model holds.
- The `String(256)` length limits and `nullable=False` are left out. The database enforces them, not this code.
- The repo query, persistence and transactions are left out. The query is a search over a sequence of stored repos. `.first()` without an ordering takes the sequence's first match.
- The check-then-act race between concurrent find-or-create calls is left out. The code has no locking, and concurrency is not modelled.
- SHA-512 internals are left out. The digest is a parameter, and no cryptographic property is claimed.
- File I/O is left out. The file system is a map from path to bytes, read as a regular file is in Python 2, whose text mode yields bytes.
- A truthy path that is not a string makes `open` raise (TypeError in Python 2). The model reports it as it reports an unreadable file, `ok == false`, with nothing changed.
- An I/O error in the middle of a read is not modelled.
- `util.last_seen` is left out; it is a parameter of `ToJson`. Only the choice of timestamp is modelled.
- `__repr__` and its detached-instance fallback are left out. They are ORM-session detail.
- Payload values are None, booleans, integers, strings and datetimes. JSON floats, arrays and objects are not modelled.
