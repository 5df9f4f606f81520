/**
The persistent core directory (mihomo/core_store.go): content-addressed binaries
"mihomo-<sha256>", selection.json and job.json. SHA-256 stays an arbitrary function into
64-digit lower-case hex names; nothing below needs it to be injective.
*/
module CoreStore {
  import opened Wrappers

  type Binary = string
  type Version = v: string | v != "" witness "v"

  const MAX_BINARY_BYTES: nat := 128 * 1024 * 1024

  datatype Artifact = Artifact(version: string, sha: string)
  datatype Selection = Selection(active: Option<Artifact>, previous: Option<Artifact>)

  const NO_SELECTION := Selection(None, None)

  /** A directory entry: a symlink or other non-regular file, or a regular one. */
  datatype File = Irregular | Regular(content: Binary, executable: bool)

  datatype SelectionFile = Missing | Unreadable | Saved(schema: int, selection: Selection)

  /** What job.json says of the last job; a failed one may have been rolled back to the old core. */
  datatype JobStatus = Running | Failed(rolledBack: bool) | Succeeded

  /** One state of the directory; binaries are keyed by the name after "mihomo-". */
  datatype Disk = Disk(binaries: map<string, File>, selection: SelectionFile, job: Option<JobStatus>)

  predicate HexDigest(name: string) {
    |name| == 64 && forall i | 0 <= i < 64 :: '0' <= name[i] <= '9' || 'a' <= name[i] <= 'f'
  }

  ghost predicate IsDigest(sha: Binary -> string) {
    forall b :: HexDigest(sha(b))
  }

  /** verifyArtifact returns nil. */
  predicate Verifies(sha: Binary -> string, d: Disk, a: Option<Artifact>) {
    && a.Some?
    && HexDigest(a.value.sha)
    && a.value.version != ""
    && a.value.sha in d.binaries
    && d.binaries[a.value.sha].Regular?
    && d.binaries[a.value.sha].executable
    && |d.binaries[a.value.sha].content| <= MAX_BINARY_BYTES
    && sha(d.binaries[a.value.sha].content) == a.value.sha
  }

  /** loadSelection returns nil on this directory, whoever wrote it. */
  predicate Loads(sha: Binary -> string, d: Disk) {
    d.selection.Missing? || (d.selection.Saved? && d.selection.schema == 1 && Verifies(sha, d, d.selection.selection.active))
  }

  /** The selection a start on this directory goes on with, None when the start refuses it. */
  function Load(sha: Binary -> string, d: Disk): Option<Selection> {
    match d.selection
    case Missing => Some(NO_SELECTION)
    case Unreadable => None
    case Saved(schema, s) => if schema == 1 && Verifies(sha, d, s.active) then Some(s) else None
  }

  predicate Distinct(s: Selection) {
    s.previous.Some? ==> s.active.Some? && s.active.value.sha != s.previous.value.sha
  }

  /** What the updater itself maintains: the directory loads and names two different cores at most. */
  predicate Sound(sha: Binary -> string, d: Disk) {
    Loads(sha, d) && (d.selection.Saved? ==> Distinct(d.selection.selection))
  }

  /** The entries pruneBinaries looks at: "mihomo-" followed by exactly a digest. */
  function Named(d: Disk): set<string> {
    set h | h in d.binaries && HexDigest(h)
  }

  /** publishBinary succeeds if its file operations do. */
  predicate Publishable(sha: Binary -> string, d: Disk, content: Binary, version: string) {
    && 0 < |content| <= MAX_BINARY_BYTES
    && (sha(content) in d.binaries ==> Verifies(sha, d, Some(Artifact(version, sha(content)))))
  }

  class CoreDirectory {
    const sha: Binary -> string
    var disk: Disk
    /** Every state the directory has been in, oldest first: a crash leaves one of these behind. */
    var journal: seq<Disk>

    ghost predicate Valid()
      reads this
    {
      IsDigest(sha) && |journal| > 0 && journal[|journal| - 1] == disk
    }

    constructor (sha: Binary -> string, disk: Disk)
      requires IsDigest(sha)
      ensures Valid()
      ensures this.sha == sha && this.disk == disk && this.journal == [disk]
    {
      this.sha := sha;
      this.disk := disk;
      this.journal := [disk];
    }

    /** One atomic directory change: a rename or an unlink. */
    method Commit(next: Disk)
      requires Valid()
      modifies this
      ensures Valid()
      ensures disk == next && journal == old(journal) + [next]
    {
      disk := next;
      journal := journal + [next];
    }

    /** publishBinary: content-addressed, never overwriting an existing file. `io` is whether the
        temporary file could be written, synced and renamed. */
    method PublishBinary(content: Binary, version: Version, io: bool) returns (r: Option<Artifact>)
      requires Valid()
      modifies this
      ensures Valid()
      ensures disk == if r.Some? && sha(content) !in old(disk).binaries
                      then old(disk).(binaries := old(disk).binaries[sha(content) := Regular(content, true)])
                      else old(disk)
      ensures journal == old(journal) || journal == old(journal) + [disk]
      ensures r.Some? ==> r.value == Artifact(version, sha(content)) && Verifies(sha, disk, r)
      ensures r.Some? <==> io && Publishable(sha, old(disk), content, version)
    {
      if !io || |content| == 0 || |content| > MAX_BINARY_BYTES {
        return None;
      }
      var a := Artifact(version, sha(content));
      if a.sha in disk.binaries {
        return if Verifies(sha, disk, Some(a)) then Some(a) else None;
      }
      Commit(disk.(binaries := disk.binaries[a.sha := Regular(content, true)]));
      return Some(a);
    }

    /** saveSelection: one rename of a synced temporary file. */
    method SaveSelection(s: Selection, io: bool) returns (ok: bool)
      requires Valid()
      modifies this
      ensures Valid() && ok == io
      ensures if io then disk == old(disk).(selection := Saved(1, s)) && journal == old(journal) + [disk]
              else disk == old(disk) && journal == old(journal)
    {
      if io {
        Commit(disk.(selection := Saved(1, s)));
      }
      return io;
    }

    /** saveJob: one rename; stage names and timestamps are not modelled. */
    method SaveJob(status: JobStatus, io: bool) returns (ok: bool)
      requires Valid()
      modifies this
      ensures Valid() && ok == io
      ensures if io then disk == old(disk).(job := Some(status)) && journal == old(journal) + [disk]
              else disk == old(disk) && journal == old(journal)
    {
      if io {
        Commit(disk.(job := Some(status)));
      }
      return io;
    }

    /** pruneBinaries: unlink every digest-named binary outside `keep`; unlinking those in `stuck` fails. */
    method PruneBinaries(keep: set<string>, stuck: set<string>)
      requires Valid()
      modifies this
      ensures Valid()
      ensures disk.selection == old(disk).selection && disk.job == old(disk).job
      ensures forall h :: h in disk.binaries <==>
                            h in old(disk).binaries && (!HexDigest(h) || h in keep || h in stuck)
      ensures forall h | h in disk.binaries :: disk.binaries[h] == old(disk).binaries[h]
      ensures |journal| >= |old(journal)| && journal[..|old(journal)|] == old(journal)
      ensures forall i | |old(journal)| <= i < |journal| ::
                journal[i].selection == old(disk).selection && journal[i].job == old(disk).job
                && forall h | h in keep && h in old(disk).binaries ::
                     h in journal[i].binaries && journal[i].binaries[h] == old(disk).binaries[h]
    {
      var entries := Named(disk);
      while entries != {}
        invariant Valid()
        invariant disk.selection == old(disk).selection && disk.job == old(disk).job
        invariant entries <= Named(disk)
        invariant forall h | h in disk.binaries :: h in old(disk).binaries && disk.binaries[h] == old(disk).binaries[h]
        invariant forall h | h in old(disk).binaries && h !in disk.binaries :: HexDigest(h) && h !in keep && h !in stuck
        invariant forall h | h in disk.binaries && HexDigest(h) && h !in keep && h !in stuck :: h in entries
        invariant |journal| >= |old(journal)| && journal[..|old(journal)|] == old(journal)
        invariant forall i | |old(journal)| <= i < |journal| ::
                    journal[i].selection == old(disk).selection && journal[i].job == old(disk).job
                    && forall h | h in keep && h in old(disk).binaries ::
                         h in journal[i].binaries && journal[i].binaries[h] == old(disk).binaries[h]
        decreases entries
      {
        var name :| name in entries;
        entries := entries - {name};
        if name !in keep && name !in stuck {
          Commit(disk.(binaries := disk.binaries - {name}));
        }
      }
    }
  }

  /**
   Saving and loading a selection: the next start goes on with exactly what was saved if and only if the
   active core verifies, so saving a selection of two different cores whose active one verifies keeps the
   directory sound. A damaged previous core is no obstacle.
   */
  lemma SavedSelectionLoads(sha: Binary -> string, d: Disk, s: Selection)
    ensures var after := d.(selection := Saved(1, s));
            && (Load(sha, after) == Some(s) <==> Verifies(sha, d, s.active))
            && (Load(sha, after).Some? <==> Loads(sha, after))
            && (Sound(sha, after) <==> Verifies(sha, d, s.active) && Distinct(s))
  {
    var after := d.(selection := Saved(1, s));
    assert Verifies(sha, after, s.active) == Verifies(sha, d, s.active);
  }

  /** The names pruning and loading accept: 64 hexadecimal digits in lower case. */
  lemma {:induction false} DigestCharacters(name: string)
    ensures HexDigest(name) <==> |name| == 64 && forall c | c in name :: c in "0123456789abcdef"
  {
    assert forall c: char :: c in "0123456789abcdef" <==> '0' <= c <= '9' || 'a' <= c <= 'f';
    assert forall i | 0 <= i < |name| :: name[i] in name;
  }

  /** A start goes on with a saved selection just if the file named by its active core is there, regular, executable,
      of 128 MiB at most and has the digest in its name. */
  lemma DamageIsNoticed(sha: Binary -> string, d: Disk, s: Selection)
    requires IsDigest(sha) && d.selection == Saved(1, s)
    ensures Load(sha, d).Some? <==>
              && s.active.Some? && s.active.value.version != "" && s.active.value.sha in d.binaries
              && exists content :: d.binaries[s.active.value.sha] == Regular(content, true)
                                   && |content| <= 134217728 && sha(content) == s.active.value.sha
  {
    if Load(sha, d).Some? {
      var content := d.binaries[s.active.value.sha].content;
      assert d.binaries[s.active.value.sha] == Regular(content, true);
    }
  }

  /** Keeping the active binary keeps the directory sound, whatever else is unlinked. */
  lemma SoundWithFewerBinaries(sha: Binary -> string, before: Disk, after: Disk)
    requires Sound(sha, before) && after.selection == before.selection
    requires before.selection.Saved? ==>
               var h := before.selection.selection.active.value.sha;
               h in after.binaries && after.binaries[h] == before.binaries[h]
    ensures Sound(sha, after)
  {
  }

  /** Publishing one core does not change whether another can be published. */
  lemma PublishingKeepsPublishable(sha: Binary -> string, d: Disk, added: Binary, content: Binary)
    requires IsDigest(sha) && 0 < |added| <= MAX_BINARY_BYTES && sha(added) !in d.binaries
    ensures var after := d.(binaries := d.binaries[sha(added) := Regular(added, true)]);
            forall version: Version ::
              Publishable(sha, after, content, version) <==> Publishable(sha, d, content, version)
  {
  }
}
