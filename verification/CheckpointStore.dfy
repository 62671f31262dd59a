/**
 * The checkpoint directory: a state file per generation and a manifest that vouches for one of them, both
 * written beside their target and renamed over it. `Disk.history` keeps every state the directory went
 * through, so a property of all its elements is a property of a process killed at any moment.
 */
module Checkpoints {
  import opened Options
  import opened Powers
  import opened DecimalText

  // ---- File names ----

  /** `StateFile(digits)` is "state-", the digits, ".json"; `Temporary` adds ".tmp"; everything else is `Other`. */
  datatype FileName =
    ManifestFile | ProbeFile | StateFile(digits: string) | Temporary(of: FileName) | Other(text: string)

  /** At least six digits. */
  predicate IsStateFileName(name: FileName) {
    name.StateFile? && |name.digits| >= 6 && forall i :: 0 <= i < |name.digits| ==> '0' <= name.digits[i] <= '9'
  }

  predicate IsStoreFileName(name: FileName) {
    var base := if name.Temporary? then name.of else name;
    base.ManifestFile? || base.ProbeFile? || IsStateFileName(base)
  }

  /** `digits` is at least six decimal digits: what stands between "state-" and ".json". */
  ghost predicate SixOrMore(digits: string) {
    |digits| >= 6 && AllDigits(digits)
  }

  /** The names the store may delete: manifest, probe and state files, and their temporary files. Nothing else. */
  lemma {:induction false} StoreNamesExactly(name: FileName)
    ensures IsStoreFileName(name) <==>
      || name in {ManifestFile, ProbeFile, Temporary(ManifestFile), Temporary(ProbeFile)}
      || exists digits :: SixOrMore(digits) && (name == StateFile(digits) || name == Temporary(StateFile(digits)))
  {
    var base := if name.Temporary? then name.of else name;
    if base.StateFile? {
      assert IsStateFileName(base) <==> SixOrMore(base.digits);
    }
  }

  lemma {:induction false} NotItsOwnTemporary(name: FileName)
    ensures Temporary(name) != name
  {
    if name.Temporary? {
      NotItsOwnTemporary(name.of);
    }
  }

  function GenerationText(generation: nat): (s: string)
    ensures SixOrMore(s) && Decimal(s) == generation && (|s| > 6 ==> s[0] != '0')
  {
    SixDigits();
    if generation < 1000000 then Padded(generation, 6)
    else
      LongText(TextOf(generation));
      TextOf(generation)
  }

  lemma {:induction false} SixDigits()
    ensures Pow(10, 6) == 1000000
  {
    assert Pow(10, 3) == 1000;
    PowAdd(10, 3, 3);
  }

  lemma {:induction false} LongText(s: string)
    requires Decimal(s) >= 1000000
    ensures |s| >= 6
  {
    DecimalBelow(s);
    SixDigits();
    if |s| < 6 {
      PowGrows(10, |s|, 6);
    }
  }

  /** Six digits, or more when the generation has more. */
  function StateFileName(generation: nat): (name: FileName)
    ensures IsStateFileName(name) && Decimal(name.digits) == generation
    ensures |name.digits| > 6 ==> name.digits[0] != '0'
  {
    StateFile(GenerationText(generation))
  }

  // ---- What a directory holds ----

  type Files = map<FileName, string>

  datatype Manifest<T> = Manifest(generation: nat, stateFile: FileName, sha256: string, bytes: nat, tag: T,
      created: bool)

  /** The serialisation and the checksum; `tag` is the binding and the cursor of a checkpoint. */
  datatype Codec<!K, !T> = Codec(
    state: K -> string,
    parseState: string -> Option<K>,
    manifest: Manifest<T> -> string,
    parseManifest: string -> Option<Manifest<T>>,
    sha256: string -> string,
    tag: K -> T)

  ghost predicate RoundTrips<K(!new), T(!new)>(c: Codec<K, T>) {
    && (forall k :: c.parseState(c.state(k)) == Some(k))
    && (forall m :: c.parseManifest(c.manifest(m)) == Some(m))
  }

  datatype Loaded<K> = NoCheckpoint | Damaged | Found(checkpoint: K, generation: nat, created: bool)

  function LoadState<K, T(==)>(c: Codec<K, T>, files: Files, m: Manifest<T>): Loaded<K> {
    if !IsStateFileName(m.stateFile) || m.stateFile !in files then Damaged
    else
      var bytes := files[m.stateFile];
      if |bytes| != m.bytes || c.sha256(bytes) != m.sha256 then Damaged
      else
        var k := c.parseState(bytes);
        if k.None? || c.tag(k.value) != m.tag then Damaged else Found(k.value, m.generation, m.created)
  }

  function LoadOf<K, T(==)>(c: Codec<K, T>, files: Files): Loaded<K> {
    if ManifestFile !in files then NoCheckpoint
    else
      var m := c.parseManifest(files[ManifestFile]);
      if m.None? then Damaged else LoadState(c, files, m.value)
  }

  /** m is the manifest, and k what its state file holds, of the size, the checksum and the binding m records. */
  ghost predicate Vouches<K, T>(c: Codec<K, T>, files: Files, m: Manifest<T>, k: K) {
    && ManifestFile in files && c.parseManifest(files[ManifestFile]) == Some(m)
    && IsStateFileName(m.stateFile) && m.stateFile in files
    && |files[m.stateFile]| == m.bytes && c.sha256(files[m.stateFile]) == m.sha256
    && c.parseState(files[m.stateFile]) == Some(k) && c.tag(k) == m.tag
  }

  /** A manifest that exists names the state file of its own generation, which is there as recorded. */
  ghost predicate Intact<K, T>(c: Codec<K, T>, files: Files) {
    ManifestFile in files ==>
      var m := c.parseManifest(files[ManifestFile]);
      m.Some? && m.value.stateFile == StateFileName(m.value.generation) && LoadState(c, files, m.value).Found?
  }

  /** The names an existing manifest makes matter: its own and its state file's. */
  ghost predicate Untouched<K, T>(c: Codec<K, T>, files: Files, changed: set<FileName>) {
    && ManifestFile !in changed
    && (ManifestFile in files && c.parseManifest(files[ManifestFile]).Some? ==>
      c.parseManifest(files[ManifestFile]).value.stateFile !in changed)
  }

  /** Whatever happens to other files, the checkpoint stays. */
  lemma {:induction false} OthersDoNotMatter<K, T>(c: Codec<K, T>, a: Files, b: Files, changed: set<FileName>)
    requires Intact(c, a) && Untouched(c, a, changed) && b - changed == a - changed
    ensures Intact(c, b) && LoadOf(c, b) == LoadOf(c, a)
  {
    assert ManifestFile in b <==> ManifestFile in b - changed;
    assert ManifestFile in a <==> ManifestFile in a - changed;
    if ManifestFile in a {
      assert b[ManifestFile] == (b - changed)[ManifestFile] == (a - changed)[ManifestFile];
      var m := c.parseManifest(a[ManifestFile]).value;
      assert m.stateFile in a && m.stateFile in a - changed;
      assert b[m.stateFile] == (b - changed)[m.stateFile] == (a - changed)[m.stateFile];
    }
  }

  /** Killed in any of the states from `low` on, before `high`, the directory loads as `result`. */
  ghost predicate AllLoad<K, T>(c: Codec<K, T>, history: seq<Files>, low: nat, high: nat, result: Loaded<K>) {
    forall i :: low <= i < high <= |history| ==> Intact(c, history[i]) && LoadOf(c, history[i]) == result
  }

  ghost predicate OnlyChanged(history: seq<Files>, low: nat, high: nat, base: Files, changed: set<FileName>) {
    forall i :: low <= i < high <= |history| ==> history[i] - changed == base - changed
  }

  lemma {:induction false} OthersNeverMatter<K, T>(c: Codec<K, T>, base: Files, history: seq<Files>, low: nat,
      high: nat, changed: set<FileName>)
    requires Intact(c, base) && Untouched(c, base, changed) && OnlyChanged(history, low, high, base, changed)
    ensures AllLoad(c, history, low, high, LoadOf(c, base))
  {
    forall i | low <= i < high <= |history| ensures Intact(c, history[i]) && LoadOf(c, history[i]) == LoadOf(c, base) {
      OthersDoNotMatter(c, base, history[i], changed);
    }
  }

  // ---- The disk ----

  class Disk {
    var files: Files
    ghost var history: seq<Files>

    constructor (files: Files)
      ensures this.files == files && history == [files]
    {
      this.files, history := files, [files];
    }

    /** Write a file from the start and flush it; a kill or an error can leave any part of it behind. */
    method WriteSynced(name: FileName, bytes: string) returns (ok: bool)
      modifies this
      ensures |history| >= |old(history)| && history[..|old(history)|] == old(history)
      ensures OnlyChanged(history, |old(history)|, |history|, old(files), {name})
      ensures if ok then files == old(files)[name := bytes] else files - {name} == old(files) - {name}
    {
      var done: nat := 0;
      ok := *;
      if !ok {
        return;
      }
      files := files[name := []];
      history := history + [files];
      while done < |bytes|
        invariant done <= |bytes| && name in files && files == old(files)[name := bytes[..done]]
        invariant |history| >= |old(history)| && history[..|old(history)|] == old(history)
        invariant OnlyChanged(history, |old(history)|, |history|, old(files), {name})
      {
        ok := *;
        if !ok {
          return;
        }
        var wrote: nat :| 0 < wrote <= |bytes| - done;
        done := done + wrote;
        files := files[name := bytes[..done]];
        history := history + [files];
      }
      assert bytes[..done] == bytes;
      ok := *;
    }

    /** Rename over the target, in one step, or not at all. */
    method Rename(from: FileName, to: FileName) returns (ok: bool)
      requires from in files && from != to
      modifies this
      ensures history == old(history) + [files]
      ensures files == if ok then (old(files) - {from})[to := old(files)[from]] else old(files)
    {
      ok := *;
      if ok {
        files := (files - {from})[to := files[from]];
      }
      history := history + [files];
    }

    method Delete(name: FileName) returns (ok: bool)
      modifies this
      ensures history == old(history) + [files]
      ensures files == if ok then old(files) - {name} else old(files)
    {
      ok := *;
      if ok {
        files := files - {name};
      }
      history := history + [files];
    }
  }

  lemma {:induction false} JoinChanged(history: seq<Files>, low: nat, mid: nat, high: nat, base: Files,
      changed: set<FileName>)
    requires OnlyChanged(history, low, mid, base, changed) && OnlyChanged(history, mid, high, base, changed) &&
      mid <= high <= |history|
    ensures OnlyChanged(history, low, high, base, changed)
  {
  }

  // ---- The store ----

  /** Of the store's own files no other than these are there. */
  ghost predicate OnlyStoreFiles(files: Files, names: set<FileName>) {
    forall name :: name in files && IsStoreFileName(name) ==> name in names
  }

  lemma {:induction false} OthersGone(before: Files, after: Files, names: set<FileName>, kept: set<FileName>)
    requires after - names == before - names && names !! after.Keys
    requires forall name :: name in before && IsStoreFileName(name) && name !in kept ==> name in names
    ensures OnlyStoreFiles(after, kept)
  {
    forall name | name in after && name !in names ensures name in before {
      assert name in after - names;
    }
  }

  class CheckpointStore<K(!new), T(!new, ==)> {
    const codec: Codec<K, T>
    const disk: Disk
    var generation: nat
    var createdDir: bool

    constructor (codec: Codec<K, T>, disk: Disk)
      ensures this.codec == codec && this.disk == disk && generation == 0 && !createdDir
    {
      this.codec, this.disk, generation, createdDir := codec, disk, 0, false;
    }

    /** The manifest is the one this store wrote last or loaded. */
    ghost predicate Consistent()
      reads this, disk
    {
      && RoundTrips(codec) && Intact(codec, disk.files)
      && (ManifestFile in disk.files ==>
        LoadOf(codec, disk.files).Found? && LoadOf(codec, disk.files).generation == generation)
    }

    predicate HasManifest()
      reads disk
    {
      ManifestFile in disk.files
    }

    /** Read the checkpoint back; a directory without a manifest and a damaged one are told apart. */
    method Load() returns (r: Loaded<K>)
      modifies this
      ensures r == LoadOf(codec, disk.files)
      ensures r.NoCheckpoint? <==> ManifestFile !in disk.files
      ensures forall m, k :: Vouches(codec, disk.files, m, k) ==> r == Found(k, m.generation, m.created)
      ensures r.Found? ==> exists m :: Vouches(codec, disk.files, m, r.checkpoint)
      ensures RoundTrips(codec) && Intact(codec, disk.files) ==> Consistent() && r != Damaged
      ensures if r.Found? then generation == r.generation && createdDir == r.created
        else generation == old(generation) && createdDir == old(createdDir)
    {
      if ManifestFile !in disk.files {
        return NoCheckpoint;
      }
      var parsed := codec.parseManifest(disk.files[ManifestFile]);
      if parsed.None? {
        return Damaged;
      }
      var m := parsed.value;
      if !IsStateFileName(m.stateFile) || m.stateFile !in disk.files {
        return Damaged;
      }
      var bytes := disk.files[m.stateFile];
      if |bytes| != m.bytes || codec.sha256(bytes) != m.sha256 {
        return Damaged;
      }
      var k := codec.parseState(bytes);
      if k.None? || codec.tag(k.value) != m.tag {
        return Damaged;
      }
      assert Vouches(codec, disk.files, m, k.value);
      generation, createdDir := m.generation, m.created;
      return Found(k.value, m.generation, m.created);
    }

    /** Write beside the target, flush, rename over it; `commit` is the first state with the new content. */
    method ReplaceFileBytesDurable(name: FileName, bytes: string) returns (ok: bool, ghost commit: nat)
      modifies disk
      ensures |old(disk.history)| <= commit <= |disk.history| &&
        disk.history[..|old(disk.history)|] == old(disk.history)
      ensures OnlyChanged(disk.history, |old(disk.history)|, commit, old(disk.files), {Temporary(name)})
      ensures OnlyChanged(disk.history, commit, |disk.history|, old(disk.files)[name := bytes], {Temporary(name)})
      ensures ok ==> disk.files - {Temporary(name)} == old(disk.files)[name := bytes] - {Temporary(name)}
      ensures !ok ==> disk.files - {Temporary(name)} == old(disk.files) - {Temporary(name)} && commit == |disk.history|
    {
      var tmp := Temporary(name);
      NotItsOwnTemporary(name);
      ghost var was := disk.files;
      ok := disk.WriteSynced(tmp, bytes);
      if ok {
        ghost var full := disk.files;
        ok := disk.Rename(tmp, name);
        if ok {
          commit := |disk.history| - 1;
          assert disk.files - {tmp} == was[name := bytes] - {tmp};
          return;
        }
      }
      var _ := disk.Delete(tmp);
      commit := |disk.history|;
    }

    /** A new state file, under a name no manifest uses yet. */
    method WriteState(name: FileName, bytes: string, ghost next: nat) returns (ok: bool)
      requires Consistent() && next == generation + 1 && name == StateFileName(next)
      modifies disk
      ensures Consistent() && LoadOf(codec, disk.files) == old(LoadOf(codec, disk.files))
      ensures Extends(old(disk.history), disk.history)
      ensures AllLoad(codec, disk.history, |old(disk.history)|, |disk.history|, old(LoadOf(codec, disk.files)))
      ensures ok ==> name in disk.files && disk.files[name] == bytes
      ensures ForeignSame(old(disk.files), disk.files)
    {
      ghost var was, start := disk.files, |disk.history|;
      ghost var commit: nat;
      ok, commit := ReplaceFileBytesDurable(name, bytes);
      NewStateIsFree(codec, was, generation, name);
      FreeStateNeverMatters(codec, was, disk.history, start, commit, name, bytes);
      FreeStateDoesNotMatter(codec, was, disk.files, ok, name, bytes);
    }

    /** The manifest that vouches for the new state file: before the rename the old checkpoint loads, from then on
        the new one. */
    method WriteManifest(k: K, m: Manifest<T>) returns (ok: bool, ghost commit: nat)
      requires RoundTrips(codec) && Intact(codec, disk.files)
      requires m.stateFile == StateFileName(m.generation) && m.stateFile in disk.files
      requires disk.files[m.stateFile] == codec.state(k) && m.bytes == |codec.state(k)| &&
        m.sha256 == codec.sha256(codec.state(k))
      requires m.tag == codec.tag(k)
      modifies disk
      ensures Extends(old(disk.history), disk.history) && |old(disk.history)| <= commit <= |disk.history|
      ensures AllLoad(codec, disk.history, |old(disk.history)|, commit, old(LoadOf(codec, disk.files)))
      ensures AllLoad(codec, disk.history, commit, |disk.history|, Found(k, m.generation, m.created))
      ensures Intact(codec, disk.files) && (!ok ==> commit == |disk.history|)
      ensures LoadOf(codec, disk.files) ==
        if ok then Found(k, m.generation, m.created) else old(LoadOf(codec, disk.files))
      ensures ok ==> NamesState(codec, disk.files, m.stateFile)
      ensures ForeignSame(old(disk.files), disk.files)
    {
      ghost var was, start := disk.files, |disk.history|;
      ok, commit := ReplaceFileBytesDurable(ManifestFile, codec.manifest(m));
      ManifestSegments(codec, was, disk.history, start, commit, k, m);
      ManifestOutcome(codec, was, disk.files, ok, k, m);
    }

    /** Delete files the current manifest does not need: as far as that works, or up to the first failure. The
        result tells whether all of them are gone. */
    method DeleteAll(names: set<FileName>, bestEffort: bool) returns (ok: bool)
      requires Intact(codec, disk.files) && Untouched(codec, disk.files, names)
      requires forall name :: name in names ==> IsStoreFileName(name)
      modifies disk
      ensures Intact(codec, disk.files) && LoadOf(codec, disk.files) == old(LoadOf(codec, disk.files))
      ensures Extends(old(disk.history), disk.history)
      ensures AllLoad(codec, disk.history, |old(disk.history)|, |disk.history|, old(LoadOf(codec, disk.files)))
      ensures disk.files - names == old(disk.files) - names
      ensures ok ==> names !! disk.files.Keys
    {
      ghost var was := disk.files;
      var left := names;
      ok := true;
      while left != {}
        invariant left <= names && disk.files - names == was - names && Extends(old(disk.history), disk.history)
        invariant ok ==> (names - left) !! disk.files.Keys
        invariant AllLoad(codec, disk.history, |old(disk.history)|, |disk.history|, LoadOf(codec, was))
        decreases |left|
      {
        var name :| name in left;
        var gone := disk.Delete(name);
        assert (disk.files - {name}) - names == disk.files - names;
        OthersDoNotMatter(codec, was, disk.files, names);
        if !gone {
          ok := false;
          if !bestEffort {
            return;
          }
        }
        left := left - {name};
      }
      OthersDoNotMatter(codec, was, disk.files, names);
    }

    /** Of the store's own files only the manifest and the state it names stay, unless a file cannot be deleted. */
    method RemoveStale(keep: FileName) returns (clean: bool)
      requires Consistent() && NamesState(codec, disk.files, keep)
      modifies disk
      ensures Consistent() && LoadOf(codec, disk.files) == old(LoadOf(codec, disk.files))
      ensures Extends(old(disk.history), disk.history)
      ensures AllLoad(codec, disk.history, |old(disk.history)|, |disk.history|, old(LoadOf(codec, disk.files)))
      ensures ForeignSame(old(disk.files), disk.files)
      ensures clean ==> OnlyStoreFiles(disk.files, {keep, ManifestFile})
    {
      ghost var was := disk.files;
      var stale := set name | name in disk.files && name != keep && name != ManifestFile && IsStoreFileName(name);
      clean := DeleteAll(stale, true);
      StoreFilesOnly(was, disk.files, stale);
      if clean {
        OthersGone(was, disk.files, stale, {keep, ManifestFile});
      }
    }

    /** Write the manifest; when that fails, drop the state file it would have named. */
    method Commit(k: K, m: Manifest<T>) returns (ok: bool, ghost commit: nat)
      requires Consistent() && m.generation == generation + 1
      requires m.stateFile == StateFileName(m.generation) && m.stateFile in disk.files
      requires disk.files[m.stateFile] == codec.state(k) && m.bytes == |codec.state(k)| &&
        m.sha256 == codec.sha256(codec.state(k))
      requires m.tag == codec.tag(k)
      modifies this`generation, disk
      ensures Consistent() && Extends(old(disk.history), disk.history) &&
        |old(disk.history)| <= commit <= |disk.history|
      ensures AllLoad(codec, disk.history, |old(disk.history)|, commit, old(LoadOf(codec, disk.files)))
      ensures AllLoad(codec, disk.history, commit, |disk.history|, Found(k, m.generation, m.created))
      ensures generation == if ok then m.generation else old(generation)
      ensures LoadOf(codec, disk.files) ==
        if ok then Found(k, m.generation, m.created) else old(LoadOf(codec, disk.files))
      ensures ok ==> NamesState(codec, disk.files, m.stateFile)
      ensures ForeignSame(old(disk.files), disk.files)
    {
      ghost var before, start := LoadOf(codec, disk.files), |disk.history|;
      ok, commit := WriteManifest(k, m);
      if ok {
        generation := m.generation;
      } else {
        StillConsistent(codec, disk.files, before);
        DropState(m.stateFile, m.generation);
        JoinLoads(codec, disk.history, start, commit, |disk.history|, before);
        commit := |disk.history|;
      }
    }

    /** Commit, then delete what the new manifest does not need. */
    method CommitAndClean(k: K, m: Manifest<T>) returns (ok: bool, ghost commit: nat, ghost clean: bool)
      requires Consistent() && m.generation == generation + 1
      requires m.stateFile == StateFileName(m.generation) && m.stateFile in disk.files
      requires disk.files[m.stateFile] == codec.state(k) && m.bytes == |codec.state(k)| &&
        m.sha256 == codec.sha256(codec.state(k))
      requires m.tag == codec.tag(k)
      modifies this`generation, disk
      ensures Consistent() && Extends(old(disk.history), disk.history) &&
        |old(disk.history)| <= commit <= |disk.history|
      ensures AllLoad(codec, disk.history, |old(disk.history)|, commit, old(LoadOf(codec, disk.files)))
      ensures AllLoad(codec, disk.history, commit, |disk.history|, Found(k, m.generation, m.created))
      ensures generation == if ok then m.generation else old(generation)
      ensures LoadOf(codec, disk.files) ==
        if ok then Found(k, m.generation, m.created) else old(LoadOf(codec, disk.files))
      ensures ForeignSame(old(disk.files), disk.files)
      ensures clean ==> ok && OnlyStoreFiles(disk.files, {m.stateFile, ManifestFile})
    {
      ghost var before, start := LoadOf(codec, disk.files), |disk.history|;
      ok, commit := Commit(k, m);
      clean := false;
      if ok {
        ghost var mid := disk.history;
        clean := RemoveStale(m.stateFile);
        LoadsCarryOver(codec, mid, disk.history, start, commit, before);
        LoadsCarryOver(codec, mid, disk.history, commit, |mid|, Found(k, m.generation, m.created));
        JoinLoads(codec, disk.history, commit, |mid|, |disk.history|, Found(k, m.generation, m.created));
      }
    }

    /** Write the next checkpoint. Killed at any moment the directory loads the previous checkpoint before `commit`
        and the new one from then on; a failed write leaves the previous one. When every deletion works too, no older
        file of the store is left. */
    method Write(k: K) returns (ok: bool, ghost commit: nat, ghost clean: bool)
      requires Consistent()
      modifies this, disk
      ensures Consistent() && Extends(old(disk.history), disk.history) &&
        |old(disk.history)| <= commit <= |disk.history|
      ensures AllLoad(codec, disk.history, |old(disk.history)|, commit, old(LoadOf(codec, disk.files)))
      ensures AllLoad(codec, disk.history, commit, |disk.history|, Found(k, old(generation) + 1, createdDir))
      ensures generation == (if ok then old(generation) + 1 else old(generation)) && createdDir == old(createdDir)
      ensures LoadOf(codec, disk.files) ==
        if ok then Found(k, generation, createdDir) else old(LoadOf(codec, disk.files))
      ensures ForeignSame(old(disk.files), disk.files)
      ensures clean ==> ok && OnlyStoreFiles(disk.files, {StateFileName(generation), ManifestFile})
    {
      ghost var before, start, files := LoadOf(codec, disk.files), |disk.history|, disk.files;
      var next := generation + 1;
      var name, bytes := StateFileName(next), codec.state(k);
      ok := WriteState(name, bytes, next);
      commit := |disk.history|;
      clean := false;
      if ok {
        ghost var mid, after := disk.history, disk.files;
        ok, commit, clean :=
          CommitAndClean(k, Manifest(next, name, codec.sha256(bytes), |bytes|, codec.tag(k), createdDir));
        LoadsCarryOver(codec, mid, disk.history, start, |mid|, before);
        JoinLoads(codec, disk.history, start, |mid|, commit, before);
      }
    }

    /** The state file of a manifest that could not be written. */
    method DropState(name: FileName, ghost next: nat)
      requires Consistent() && next == generation + 1 && name == StateFileName(next)
      modifies disk
      ensures Consistent() && LoadOf(codec, disk.files) == old(LoadOf(codec, disk.files))
      ensures Extends(old(disk.history), disk.history)
      ensures AllLoad(codec, disk.history, |old(disk.history)|, |disk.history|, old(LoadOf(codec, disk.files)))
      ensures ForeignSame(old(disk.files), disk.files)
    {
      ghost var was := disk.files;
      NewStateIsFree(codec, disk.files, generation, name);
      var _ := DeleteAll({name}, true);
      StoreFilesOnly(was, disk.files, {name});
    }

    /** The manifest goes first, so a kill leaves the whole checkpoint or none. */
    method Remove() returns (ok: bool)
      requires Consistent()
      modifies disk
      ensures Consistent() && Extends(old(disk.history), disk.history)
      ensures forall i :: |old(disk.history)| <= i < |disk.history| ==>
        Intact(codec, disk.history[i]) &&
          LoadOf(codec, disk.history[i]) in {old(LoadOf(codec, disk.files)), NoCheckpoint}
      ensures ok ==> LoadOf(codec, disk.files) == NoCheckpoint && OnlyStoreFiles(disk.files, {})
      ensures ForeignSame(old(disk.files), disk.files)
    {
      ghost var was, before, start := disk.files, LoadOf(codec, disk.files), |disk.history|;
      ok := disk.Delete(ManifestFile);
      StoreFilesOnly(was, disk.files, {ManifestFile});
      if !ok {
        return;
      }
      ghost var mid := disk.files;
      var names := set name | name in disk.files && IsStoreFileName(name);
      ok := DeleteAll(names, false);
      StoreFilesOnly(mid, disk.files, names);
      if ok {
        OthersGone(mid, disk.files, names, {});
      }
    }
  }

  lemma {:induction false} LoadsCarryOver<K, T>(c: Codec<K, T>, a: seq<Files>, b: seq<Files>, low: nat, high: nat,
      result: Loaded<K>)
    requires Extends(a, b) && high <= |a| && AllLoad(c, a, low, high, result)
    ensures AllLoad(c, b, low, high, result)
  {
    forall i | low <= i < high <= |b| ensures Intact(c, b[i]) && LoadOf(c, b[i]) == result {
      assert b[i] == b[..|a|][i] == a[i];
    }
  }

  lemma {:induction false} StillConsistent<K, T>(c: Codec<K, T>, files: Files, before: Loaded<K>)
    requires Intact(c, files) && LoadOf(c, files) == before
    ensures ManifestFile in files <==> before.Found?
  {
  }

  lemma {:induction false} ManifestSegments<K(!new), T(!new)>(c: Codec<K, T>, was: Files, history: seq<Files>,
      start: nat, commit: nat, k: K, m: Manifest<T>)
    requires RoundTrips(c) && Intact(c, was) && m.stateFile == StateFileName(m.generation) && m.stateFile in was
    requires was[m.stateFile] == c.state(k) && m.bytes == |c.state(k)| && m.sha256 == c.sha256(c.state(k)) &&
      m.tag == c.tag(k)
    requires OnlyChanged(history, start, commit, was, {Temporary(ManifestFile)})
    requires OnlyChanged(history, commit, |history|, was[ManifestFile := c.manifest(m)], {Temporary(ManifestFile)})
    ensures AllLoad(c, history, start, commit, LoadOf(c, was))
    ensures AllLoad(c, history, commit, |history|, Found(k, m.generation, m.created))
  {
    var full := was[ManifestFile := c.manifest(m)];
    ManifestTemporary(c, was);
    OthersNeverMatter(c, was, history, start, commit, {Temporary(ManifestFile)});
    NewManifestLoads(c, was, k, m);
    ManifestTemporary(c, full);
    OthersNeverMatter(c, full, history, commit, |history|, {Temporary(ManifestFile)});
  }

  lemma {:induction false} ManifestOutcome<K(!new), T(!new)>(c: Codec<K, T>, was: Files, now: Files, ok: bool, k: K,
      m: Manifest<T>)
    requires RoundTrips(c) && Intact(c, was) && m.stateFile == StateFileName(m.generation) && m.stateFile in was
    requires was[m.stateFile] == c.state(k) && m.bytes == |c.state(k)| && m.sha256 == c.sha256(c.state(k)) &&
      m.tag == c.tag(k)
    requires var tmp := Temporary(ManifestFile);
      now - {tmp} == (if ok then was[ManifestFile := c.manifest(m)] else was) - {tmp}
    ensures Intact(c, now) && LoadOf(c, now) == if ok then Found(k, m.generation, m.created) else LoadOf(c, was)
    ensures ok ==> NamesState(c, now, m.stateFile)
    ensures ForeignSame(was, now)
  {
    var tmp := Temporary(ManifestFile);
    var near := if ok then was[ManifestFile := c.manifest(m)] else was;
    NewManifestLoads(c, was, k, m);
    ManifestTemporary(c, near);
    OthersDoNotMatter(c, near, now, {tmp});
    SameManifest(near, now, tmp);
    WidenOne(now, near, was, {tmp}, {tmp, ManifestFile});
    StoreFilesOnly(was, now, {tmp, ManifestFile});
  }

  lemma {:induction false} JoinLoads<K, T>(c: Codec<K, T>, history: seq<Files>, low: nat, mid: nat, high: nat,
      result: Loaded<K>)
    requires AllLoad(c, history, low, mid, result) && AllLoad(c, history, mid, high, result) && mid <= high <= |history|
    ensures AllLoad(c, history, low, high, result)
  {
  }

  ghost predicate Extends(a: seq<Files>, b: seq<Files>) {
    |a| <= |b| && b[..|a|] == a
  }

  /** Files that are not the store's are left alone. */
  ghost predicate ForeignSame(a: Files, b: Files) {
    forall name :: !IsStoreFileName(name) ==> (name in a <==> name in b) && (name in a ==> a[name] == b[name])
  }

  ghost predicate NamesState<K, T>(c: Codec<K, T>, files: Files, name: FileName) {
    ManifestFile in files && c.parseManifest(files[ManifestFile]).Some? &&
    c.parseManifest(files[ManifestFile]).value.stateFile == name
  }

  lemma {:induction false} SameManifest(a: Files, b: Files, tmp: FileName)
    requires b - {tmp} == a - {tmp} && tmp != ManifestFile
    ensures (ManifestFile in a <==> ManifestFile in b) && (ManifestFile in a ==> a[ManifestFile] == b[ManifestFile])
  {
    assert ManifestFile in a <==> ManifestFile in a - {tmp};
    assert ManifestFile in b <==> ManifestFile in b - {tmp};
    if ManifestFile in a {
      assert a[ManifestFile] == (a - {tmp})[ManifestFile] == (b - {tmp})[ManifestFile];
    }
  }

  lemma {:induction false} StoreFilesOnly(a: Files, b: Files, changed: set<FileName>)
    requires a - changed == b - changed && forall name :: name in changed ==> IsStoreFileName(name)
    ensures ForeignSame(a, b)
  {
    forall name | !IsStoreFileName(name) ensures (name in a <==> name in b) && (name in a ==> a[name] == b[name]) {
      assert name in a <==> name in a - changed;
      assert name in b <==> name in b - changed;
      if name in a {
        assert a[name] == (a - changed)[name] == (b - changed)[name];
      }
    }
  }

  lemma {:induction false} WidenOne(h: Files, near: Files, base: Files, few: set<FileName>, many: set<FileName>)
    requires few <= many && h - few == near - few && near - many == base - many
    ensures h - many == base - many
  {
    assert h - many == (h - few) - many;
    assert near - many == (near - few) - many;
  }

  lemma {:induction false} WidenChanged(history: seq<Files>, low: nat, high: nat, near: Files, base: Files,
      few: set<FileName>, many: set<FileName>)
    requires OnlyChanged(history, low, high, near, few) && few <= many && near - many == base - many
    ensures OnlyChanged(history, low, high, base, many)
  {
    forall i | low <= i < high <= |history| ensures history[i] - many == base - many {
      WidenOne(history[i], near, base, few, many);
    }
  }

  lemma {:induction false} FreeStateNeverMatters<K, T>(c: Codec<K, T>, was: Files, history: seq<Files>, start: nat,
      commit: nat, name: FileName, bytes: string)
    requires Intact(c, was) && Untouched(c, was, {name, Temporary(name)}) && commit <= |history|
    requires OnlyChanged(history, start, commit, was, {Temporary(name)})
    requires OnlyChanged(history, commit, |history|, was[name := bytes], {Temporary(name)})
    ensures AllLoad(c, history, start, |history|, LoadOf(c, was))
  {
    var changed := {name, Temporary(name)};
    WidenChanged(history, start, commit, was, was, {Temporary(name)}, changed);
    WidenChanged(history, commit, |history|, was[name := bytes], was, {Temporary(name)}, changed);
    JoinChanged(history, start, commit, |history|, was, changed);
    OthersNeverMatter(c, was, history, start, |history|, changed);
  }

  lemma {:induction false} FreeStateDoesNotMatter<K, T>(c: Codec<K, T>, was: Files, files: Files, written: bool,
      name: FileName, bytes: string)
    requires Intact(c, was) && Untouched(c, was, {name, Temporary(name)}) && IsStoreFileName(name) &&
      IsStoreFileName(Temporary(name))
    requires files - {Temporary(name)} == (if written then was[name := bytes] else was) - {Temporary(name)}
    ensures Intact(c, files) && LoadOf(c, files) == LoadOf(c, was) && ForeignSame(was, files)
    ensures written ==> name in files && files[name] == bytes
  {
    var changed, near := {name, Temporary(name)}, if written then was[name := bytes] else was;
    if written {
      NotItsOwnTemporary(name);
      assert name in files - {Temporary(name)} && (files - {Temporary(name)})[name] == bytes;
    }
    assert near - {name} == was - {name};
    assert near - changed == (near - {name}) - {Temporary(name)};
    assert was - changed == (was - {name}) - {Temporary(name)};
    WidenOne(files, near, was, {Temporary(name)}, changed);
    OthersDoNotMatter(c, was, files, changed);
    StoreFilesOnly(was, files, changed);
  }

  lemma {:induction false} NewStateIsFree<K, T>(c: Codec<K, T>, files: Files, generation: nat, name: FileName)
    requires Intact(c, files) && name == StateFileName(generation + 1)
    requires ManifestFile in files ==> LoadOf(c, files).Found? && LoadOf(c, files).generation == generation
    ensures Untouched(c, files, {name, Temporary(name)})
  {
    if ManifestFile in files {
      var m := c.parseManifest(files[ManifestFile]).value;
      assert Decimal(m.stateFile.digits) == generation;
    }
  }

  lemma {:induction false} ManifestTemporary<K, T>(c: Codec<K, T>, files: Files)
    requires Intact(c, files)
    ensures Untouched(c, files, {Temporary(ManifestFile)})
  {
    if ManifestFile in files {
    }
  }

  lemma {:induction false} NewManifestLoads<K(!new), T(!new)>(c: Codec<K, T>, files: Files, k: K, m: Manifest<T>)
    requires RoundTrips(c) && m.stateFile == StateFileName(m.generation) && m.stateFile in files
    requires files[m.stateFile] == c.state(k) && m.bytes == |c.state(k)| && m.sha256 == c.sha256(c.state(k)) &&
      m.tag == c.tag(k)
    ensures var full := files[ManifestFile := c.manifest(m)];
      Intact(c, full) && LoadOf(c, full) == Found(k, m.generation, m.created) && NamesState(c, full, m.stateFile)
  {
    assert c.parseManifest(c.manifest(m)) == Some(m);
    assert c.parseState(c.state(k)) == Some(k);
  }
}
