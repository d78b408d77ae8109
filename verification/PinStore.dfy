/**
 Trust-on-first-use pinning of MCP server entries. The digest of a canonical entry is a
 parameter; the commands rely on nothing but its being a function of the canonical value.
 */
module PinStore {
  import opened Text
  import opened CanonicalJson

  // ---------------------------------------------------------------- file names

  function SafeChar(c: char): char {
    if IsWordChar(c) || c == '-' then c else '_'
  }

  /** The file stem of a server's pin. */
  function Sanitize(name: string): (r: string)
    ensures |r| == |name| && forall i | 0 <= i < |name| :: r[i] == SafeChar(name[i])
  {
    seq(|name|, i requires 0 <= i < |name| => SafeChar(name[i]))
  }

  /** A character that a file name keeps apart from all others. */
  predicate Distinct(c: char) {
    'a' <= c <= 'z' || 'A' <= c <= 'Z' || '0' <= c <= '9' || c == '-'
  }

  /** Two servers share a pin file exactly when their names agree but for characters that are neither letters nor
      digits nor hyphens. */
  lemma SharedFile(a: string, b: string)
    ensures Sanitize(a) == Sanitize(b) <==>
              |a| == |b| && forall i | 0 <= i < |a| :: a[i] == b[i] || (!Distinct(a[i]) && !Distinct(b[i]))
  {
    if Sanitize(a) == Sanitize(b) {
      forall i | 0 <= i < |a|
        ensures a[i] == b[i] || (!Distinct(a[i]) && !Distinct(b[i]))
      {
        assert Sanitize(a)[i] == Sanitize(b)[i];
      }
    }
    if |a| == |b| && forall i | 0 <= i < |a| :: a[i] == b[i] || (!Distinct(a[i]) && !Distinct(b[i])) {
      assert Sanitize(a) == Sanitize(b);
    }
  }

  // ---------------------------------------------------------------- the store and its commands

  datatype PinRecord = PinRecord(serverName: string, configHash: string, pinnedAt: string)

  /** A pin file, which may hold something that is not a pin record. */
  datatype PinFile = Readable(record: PinRecord) | Unreadable

  type Files = map<string, PinFile>

  /** What loading the MCP configuration yields. */
  datatype Config = Loaded(servers: seq<Member>) | NotLoaded

  type Digest = Value -> string

  function LiveHash(digest: Digest, entry: Value): string {
    digest(Canon(entry))
  }

  function Lookup(servers: seq<Member>, name: string): Option<Value> {
    if servers == [] then None
    else if servers[0].key == name then Some(servers[0].value)
    else Lookup(servers[1..], name)
  }

  /** How writing a pin file ends. A write that fails after the file was opened leaves what is not a record. */
  datatype WriteResult = Written | Refused | Torn

  datatype Command =
    | Pin(name: Option<string>, config: Config, force: bool, now: string, write: WriteResult)
    | Unpin(name: Option<string>, removeOk: bool)
    | Verify(name: Option<string>, config: Config)

  /** The entry a pin command is about. */
  function Entry(c: Command): Option<Value>
    requires c.Pin?
  {
    if c.name.Some? && c.config.Loaded? then Lookup(c.config.servers, c.name.value) else None
  }

  predicate IsReadable(files: Files, slot: string) {
    slot in files && files[slot].Readable?
  }

  /** The command changes the file in `slot`: there is an entry for its server, and the file there is missing,
      unreadable, or overruled. */
  predicate Writes(files: Files, c: Command, slot: string) {
    && c.Pin? && c.name.Some? && Sanitize(c.name.value) == slot && Entry(c).Some?
    && (c.force || !IsReadable(files, slot)) && !c.write.Refused?
  }

  predicate Erases(files: Files, c: Command, slot: string) {
    c.Unpin? && c.name.Some? && Sanitize(c.name.value) == slot && slot in files && c.removeOk
  }

  function RecordOf(digest: Digest, c: Command): PinRecord
    requires c.Pin? && c.name.Some? && Entry(c).Some?
  {
    PinRecord(c.name.value, LiveHash(digest, Entry(c).value), c.now)
  }

  /** What a command that writes leaves in the file. */
  function FileOf(digest: Digest, c: Command): PinFile
    requires c.Pin? && c.name.Some? && Entry(c).Some?
  {
    if c.write.Written? then Readable(RecordOf(digest, c)) else Unreadable
  }

  /** The pin files after a command. */
  function Step(digest: Digest, files: Files, c: Command): Files {
    if c.Verify? || c.name.None? then files
    else
      var slot := Sanitize(c.name.value);
      if Writes(files, c, slot) then files[slot := FileOf(digest, c)]
      else if Erases(files, c, slot) then files - {slot}
      else files
  }

  /** The server verifies: it has an entry, and the record in its pin file is readable and carries the hash
      of that entry. */
  predicate Verified(digest: Digest, files: Files, servers: seq<Member>, name: string) {
    var entry := Lookup(servers, name);
    var slot := Sanitize(name);
    entry.Some? && IsReadable(files, slot) && files[slot].record.configHash == LiveHash(digest, entry.value)
  }

  function NamesToVerify(c: Command): seq<string>
    requires c.Verify? && c.config.Loaded?
  {
    if c.name.Some? then [c.name.value]
    else seq(|c.config.servers|, i requires 0 <= i < |c.config.servers| => c.config.servers[i].key)
  }

  function ExitCode(digest: Digest, files: Files, c: Command): nat {
    match c
    case Verify(_, config) =>
      if config.NotLoaded? then 2
      else if NamesToVerify(c) == [] then 1
      else if forall n <- NamesToVerify(c) :: Verified(digest, files, config.servers, n) then 0
      else 1
    case Unpin(name, removeOk) =>
      if name.None? then 2
      else if Sanitize(name.value) !in files then 1
      else if removeOk then 0 else 2
    case Pin(name, _, force, _, write) =>
      if Entry(c).None? then 2
      else
        var slot := Sanitize(name.value);
        if force || !IsReadable(files, slot) then (if write.Written? then 0 else 2)
        else if files[slot].record.configHash == LiveHash(digest, Entry(c).value) then 0
        else 2
  }

  /** After a pin its server verifies against the configuration that was loaded; and a record that was there and was
      to stay carries that hash already, or a new one names the server, its hash and the time. */
  ghost predicate PinStands(digest: Digest, before: Files, after: Files, c: Command)
    requires c.Pin?
  {
    && Entry(c).Some?
    && Verified(digest, after, c.config.servers, c.name.value)
    && (c.force ==> c.write.Written?)
    && var slot := Sanitize(c.name.value);
       if !c.force && IsReadable(before, slot) then after == before
       else after[slot] == Readable(PinRecord(c.name.value, digest(Canon(Entry(c).value)), c.now))
  }

  /** A pin exits with 0 or 2, and with 0 exactly when it stands afterwards. */
  lemma PinSucceedsExactly(digest: Digest, files: Files, c: Command)
    requires c.Pin?
    ensures var code, after := ExitCode(digest, files, c), Step(digest, files, c);
      && (code == 0 || code == 2)
      && (code == 0 <==> PinStands(digest, files, after, c))
      && (code == 0 <==> Entry(c).Some? && Verified(digest, after, c.config.servers, c.name.value)
                         && (c.force ==> c.write.Written?))
  {}

  /** An unpin exits with 0 exactly when its file was there and is gone, with 1 exactly when there was none, and with
      2 otherwise; it leaves all other files alone. */
  lemma UnpinCodes(digest: Digest, files: Files, c: Command)
    requires c.Unpin?
    ensures var code, after := ExitCode(digest, files, c), Step(digest, files, c);
      && (code == 0 <==> c.name.Some? && Sanitize(c.name.value) in files && Sanitize(c.name.value) !in after)
      && (code == 1 <==> c.name.Some? && Sanitize(c.name.value) !in files)
      && code <= 2
      && (code != 0 ==> after == files)
      && forall slot | c.name.None? || slot != Sanitize(c.name.value) ::
           (slot in after <==> slot in files) && (slot in files ==> after[slot] == files[slot])
  {}

  /** The command line tool over its directory of pin files. */
  class Tool {
    var files: Files
    const digest: Digest

    constructor (digest: Digest)
      ensures files == map[] && this.digest == digest
    {
      files := map[];
      this.digest := digest;
    }

    method PinServer(name: Option<string>, config: Config, force: bool, now: string, write: WriteResult)
      returns (exit: nat)
      modifies this`files
      ensures var c := Pin(name, config, force, now, write);
        && files == Step(digest, old(files), c) && exit == ExitCode(digest, old(files), c)
        && (exit == 0 || exit == 2)
        && (exit == 0 <==> PinStands(digest, old(files), files, c))
    {
      PinSucceedsExactly(digest, files, Pin(name, config, force, now, write));
      if name.None? || config.NotLoaded? {
        return 2;
      }
      var entry := Lookup(config.servers, name.value);
      if entry.None? {
        return 2;
      }
      var slot := Sanitize(name.value);
      if slot in files && !force {
        match files[slot] {
          case Readable(existing) =>
            var live := LiveHash(digest, entry.value);
            if existing.configHash == live {
              return 0;
            }
            return 2;
          case Unreadable =>
        }
      }
      var live := LiveHash(digest, entry.value);
      match write {
        case Refused =>
          return 2;
        case Torn =>
          files := files[slot := Unreadable];
          return 2;
        case Written =>
          files := files[slot := Readable(PinRecord(name.value, live, now))];
          return 0;
      }
    }

    method VerifyServers(name: Option<string>, config: Config) returns (exit: nat)
      ensures exit == ExitCode(digest, files, Verify(name, config))
    {
      if config.NotLoaded? {
        return 2;
      }
      var names := NamesToVerify(Verify(name, config));
      if names == [] {
        return 1;
      }
      var hadFailure := false;
      for i := 0 to |names|
        invariant hadFailure <==> exists j | 0 <= j < i :: !Verified(digest, files, config.servers, names[j])
      {
        var entry := Lookup(config.servers, names[i]);
        var slot := Sanitize(names[i]);
        if entry.None? {
          hadFailure := true;
          continue;
        }
        var live := LiveHash(digest, entry.value);
        if slot !in files {
          hadFailure := true;
          continue;
        }
        match files[slot] {
          case Unreadable =>
            hadFailure := true;
          case Readable(record) =>
            if record.configHash != live {
              hadFailure := true;
            }
        }
      }
      exit := if hadFailure then 1 else 0;
    }

    method UnpinServer(name: Option<string>, removeOk: bool) returns (exit: nat)
      modifies this`files
      ensures var c := Unpin(name, removeOk);
        && files == Step(digest, old(files), c) && exit == ExitCode(digest, old(files), c)
        && (exit == 0 <==> name.Some? && Sanitize(name.value) in old(files) && Sanitize(name.value) !in files)
        && (exit == 1 <==> name.Some? && Sanitize(name.value) !in old(files))
        && exit <= 2
    {
      if name.None? {
        return 2;
      }
      var slot := Sanitize(name.value);
      if slot !in files {
        return 1;
      }
      if !removeOk {
        return 2;
      }
      files := files - {slot};
      return 0;
    }
  }

  // ---------------------------------------------------------------- runs

  /** The pin files after a run of commands that starts with none. */
  function Run(digest: Digest, cmds: seq<Command>): Files {
    if cmds == [] then map[] else Step(digest, Run(digest, cmds[..|cmds| - 1]), cmds[|cmds| - 1])
  }

  /** What a command does to one pin file. */
  lemma StepAt(digest: Digest, files: Files, c: Command, slot: string)
    ensures var after := Step(digest, files, c);
      && (Writes(files, c, slot) ==> slot in after && after[slot] == FileOf(digest, c))
      && (Erases(files, c, slot) ==> slot !in after)
      && (!Writes(files, c, slot) && !Erases(files, c, slot) ==>
            (slot in after <==> slot in files) && (slot in files ==> after[slot] == files[slot]))
  {}

  /** Without `--force` a readable record is never changed by pinning. */
  lemma PinKeepsReadable(digest: Digest, files: Files, c: Command, slot: string)
    requires c.Pin? && !c.force && IsReadable(files, slot)
    ensures var after := Step(digest, files, c); slot in after && after[slot] == files[slot]
  {
    StepAt(digest, files, c, slot);
  }

  /** Command `k` of the run is the last one that wrote or erased `slot`, and it wrote it. */
  ghost predicate LastWriter(digest: Digest, cmds: seq<Command>, slot: string, k: int) {
    && 0 <= k < |cmds| && Writes(Run(digest, cmds[..k]), cmds[k], slot)
    && forall j {:trigger Touches(digest, cmds, slot, j)} | k < j < |cmds| :: !Touches(digest, cmds, slot, j)
  }

  ghost predicate Touches(digest: Digest, cmds: seq<Command>, slot: string, j: int)
    requires 0 <= j < |cmds|
  {
    Writes(Run(digest, cmds[..j]), cmds[j], slot) || Erases(Run(digest, cmds[..j]), cmds[j], slot)
  }

  /** Every pin file of a run was written by its last writer, and holds what that command wrote. */
  lemma {:induction false} FilesHaveWriters(digest: Digest, cmds: seq<Command>, slot: string)
    ensures slot in Run(digest, cmds) <==> exists k :: LastWriter(digest, cmds, slot, k)
    ensures forall k | LastWriter(digest, cmds, slot, k) ::
              slot in Run(digest, cmds) && Run(digest, cmds)[slot] == FileOf(digest, cmds[k])
  {
    if cmds != [] {
      var n := |cmds| - 1;
      var before := cmds[..n];
      FilesHaveWriters(digest, before, slot);
      StepAt(digest, Run(digest, before), cmds[n], slot);
      if Touches(digest, cmds, slot, n) {
        forall k | LastWriter(digest, cmds, slot, k) ensures k == n {}
        if Writes(Run(digest, before), cmds[n], slot) {
          assert LastWriter(digest, cmds, slot, n);
        }
      } else {
        forall k ensures LastWriter(digest, cmds, slot, k) <==> LastWriter(digest, before, slot, k) {
          WriterBefore(digest, cmds, slot, k);
        }
        forall k | LastWriter(digest, cmds, slot, k) ensures cmds[k] == before[k] {
          assert LastWriter(digest, before, slot, k);
        }
      }
    }
  }

  /** A last command that does not touch the slot does not change who wrote it last. */
  lemma WriterBefore(digest: Digest, cmds: seq<Command>, slot: string, k: int)
    requires cmds != [] && !Touches(digest, cmds, slot, |cmds| - 1)
    ensures LastWriter(digest, cmds, slot, k) <==> LastWriter(digest, cmds[..|cmds| - 1], slot, k)
  {
    var n := |cmds| - 1;
    var before := cmds[..n];
    forall j | 0 <= j < n ensures before[..j] == cmds[..j] && before[j] == cmds[j] {}
    forall j | 0 <= j < n ensures Touches(digest, cmds, slot, j) <==> Touches(digest, before, slot, j) {}
    if LastWriter(digest, cmds, slot, k) {
      assert k != n;
      forall j | k < j < n ensures !Touches(digest, before, slot, j) { assert !Touches(digest, cmds, slot, j); }
    }
    if LastWriter(digest, before, slot, k) {
      forall j | k < j < |cmds| ensures !Touches(digest, cmds, slot, j) {
        if j < n { assert !Touches(digest, before, slot, j); }
      }
    }
  }

  ghost predicate Injective(digest: Digest) {
    forall a, b :: digest(a) == digest(b) ==> a == b
  }

  ghost predicate ValidConfig(config: Config) {
    config.Loaded? ==> Valid(Object(config.servers))
  }

  lemma {:induction false} LookupValid(servers: seq<Member>, name: string)
    requires Valid(Object(servers)) && Lookup(servers, name).Some?
    ensures Valid(Lookup(servers, name).value)
  {
    if servers[0].key != name {
      var rest := servers[1..];
      forall i, j | 0 <= i < j < |rest| ensures rest[i].key != rest[j].key {
        assert servers[i + 1].key != servers[j + 1].key;
      }
      forall i | 0 <= i < |rest| ensures Valid(rest[i].value) { assert Valid(servers[i + 1].value); }
      LookupValid(rest, name);
    }
  }

  ghost predicate ValidRun(cmds: seq<Command>) {
    forall k | 0 <= k < |cmds| && cmds[k].Pin? :: ValidConfig(cmds[k].config)
  }

  /** The command that last wrote or erased the pin file of `name` wrote it whole, for an entry that differs from
      `entry` in member order only. */
  ghost predicate PinnedFor(digest: Digest, cmds: seq<Command>, name: string, entry: Value) {
    exists k ::
      LastWriter(digest, cmds, Sanitize(name), k) && cmds[k].write.Written? && Same(Entry(cmds[k]).value, entry)
  }

  lemma VerifiedExactly(digest: Digest, cmds: seq<Command>, servers: seq<Member>, name: string)
    requires Injective(digest) && Valid(Object(servers)) && ValidRun(cmds)
    ensures Verified(digest, Run(digest, cmds), servers, name) <==>
              Lookup(servers, name).Some? && PinnedFor(digest, cmds, name, Lookup(servers, name).value)
  {
    var files, slot := Run(digest, cmds), Sanitize(name);
    var live := Lookup(servers, name);
    FilesHaveWriters(digest, cmds, slot);
    if live.Some? {
      LookupValid(servers, name);
      forall k | LastWriter(digest, cmds, slot, k) && cmds[k].write.Written?
        ensures files[slot].record.configHash == LiveHash(digest, live.value)
                <==> Same(Entry(cmds[k]).value, live.value)
      {
        LookupValid(cmds[k].config.servers, cmds[k].name.value);
        CanonDecidesSame(Entry(cmds[k]).value, live.value);
      }
    }
  }

  /** After any run, verifying one server succeeds exactly when it has a live entry and the command that
      last wrote or erased its pin file wrote it whole, for an entry that differs from the live one in member
      order only. */
  lemma VerifySucceedsExactly(digest: Digest, cmds: seq<Command>, name: string, config: Config)
    requires Injective(digest) && ValidConfig(config) && ValidRun(cmds)
    ensures ExitCode(digest, Run(digest, cmds), Verify(Some(name), config)) == 0 <==>
              config.Loaded? && Lookup(config.servers, name).Some?
              && PinnedFor(digest, cmds, name, Lookup(config.servers, name).value)
  {
    if config.Loaded? {
      assert NamesToVerify(Verify(Some(name), config)) == [name];
      assert name in NamesToVerify(Verify(Some(name), config));
      VerifiedExactly(digest, cmds, config.servers, name);
    }
  }

  /** After any run, a pin succeeds exactly when its server has an entry, the command that last wrote or erased the pin
      file, the pin itself included, wrote it whole for an entry that differs from that one in member order only, and
      a forced pin was written. */
  lemma PinCodeOverRuns(digest: Digest, cmds: seq<Command>, c: Command)
    requires Injective(digest) && ValidRun(cmds) && c.Pin? && ValidConfig(c.config)
    ensures ExitCode(digest, Run(digest, cmds), c) == 0 <==>
              Entry(c).Some? && PinnedFor(digest, cmds + [c], c.name.value, Entry(c).value)
              && (c.force ==> c.write.Written?)
  {
    PinSucceedsExactly(digest, Run(digest, cmds), c);
    RunSnoc(digest, cmds, c);
    if Entry(c).Some? {
      VerifiedExactly(digest, cmds + [c], c.config.servers, c.name.value);
    }
  }

  lemma {:induction false} LookupAt(servers: seq<Member>, i: nat)
    requires i < |servers| && forall j, k | 0 <= j < k < |servers| :: servers[j].key != servers[k].key
    ensures Lookup(servers, servers[i].key) == Some(servers[i].value)
  {
    if i > 0 {
      var rest := servers[1..];
      forall j, k | 0 <= j < k < |rest| ensures rest[j].key != rest[k].key {
        assert servers[j + 1].key != servers[k + 1].key;
      }
      LookupAt(rest, i - 1);
    }
  }

  /** After any run, verifying all listed servers succeeds exactly when some are listed and the same holds of each. */
  lemma VerifyAllExactly(digest: Digest, cmds: seq<Command>, config: Config)
    requires Injective(digest) && ValidConfig(config) && ValidRun(cmds)
    ensures ExitCode(digest, Run(digest, cmds), Verify(None, config)) == 0 <==>
              config.Loaded? && config.servers != []
              && forall i | 0 <= i < |config.servers| ::
                   PinnedFor(digest, cmds, config.servers[i].key, config.servers[i].value)
  {
    if config.Loaded? {
      var servers := config.servers;
      VerifyAllCode(digest, Run(digest, cmds), servers);
      forall i | 0 <= i < |servers|
        ensures Verified(digest, Run(digest, cmds), servers, servers[i].key)
                <==> PinnedFor(digest, cmds, servers[i].key, servers[i].value)
      {
        LookupAt(servers, i);
        VerifiedExactly(digest, cmds, servers, servers[i].key);
      }
    }
  }

  lemma VerifyAllCode(digest: Digest, files: Files, servers: seq<Member>)
    ensures ExitCode(digest, files, Verify(None, Loaded(servers))) == 0 <==>
              servers != [] && forall i | 0 <= i < |servers| :: Verified(digest, files, servers, servers[i].key)
  {
    var names := NamesToVerify(Verify(None, Loaded(servers)));
    forall i | 0 <= i < |servers| ensures names[i] == servers[i].key && names[i] in names {}
  }

  // ---------------------------------------------------------------- which lists of servers can be verified

  /** Listed servers that share a pin file have entries that differ in member order only. */
  ghost predicate SharersAgree(servers: seq<Member>) {
    forall i, j | 0 <= i < |servers| && 0 <= j < |servers| && Sanitize(servers[i].key) == Sanitize(servers[j].key) ::
      Same(servers[i].value, servers[j].value)
  }

  function ForcedPin(servers: seq<Member>, i: nat): Command
    requires i < |servers|
  {
    Pin(Some(servers[i].key), Loaded(servers), true, "", Written)
  }

  lemma RunSnoc(digest: Digest, cmds: seq<Command>, c: Command)
    requires ValidRun(cmds) && (c.Pin? ==> ValidConfig(c.config))
    ensures Run(digest, cmds + [c]) == Step(digest, Run(digest, cmds), c) && ValidRun(cmds + [c])
  {
    assert (cmds + [c])[..|cmds|] == cmds;
  }

  /** Pinning one more server leaves the earlier ones verified. */
  lemma PinNext(digest: Digest, files: Files, servers: seq<Member>, n: nat, i: nat)
    requires Valid(Object(servers)) && SharersAgree(servers) && i <= n < |servers|
    requires i < n ==> Verified(digest, files, servers, servers[i].key)
    ensures Verified(digest, Step(digest, files, ForcedPin(servers, n)), servers, servers[i].key)
  {
    LookupAt(servers, n);
    LookupAt(servers, i);
    if Sanitize(servers[i].key) == Sanitize(servers[n].key) {
      CanonDecidesSame(servers[i].value, servers[n].value);
    }
  }

  ghost predicate FirstVerified(digest: Digest, files: Files, servers: seq<Member>, n: nat)
    requires n <= |servers|
  {
    forall i | 0 <= i < n :: Verified(digest, files, servers, servers[i].key)
  }

  lemma PinStep(digest: Digest, files: Files, servers: seq<Member>, n: nat)
    requires Valid(Object(servers)) && SharersAgree(servers)
    requires n < |servers| && FirstVerified(digest, files, servers, n)
    ensures FirstVerified(digest, Step(digest, files, ForcedPin(servers, n)), servers, n + 1)
  {
    forall i | 0 <= i < n + 1
      ensures Verified(digest, Step(digest, files, ForcedPin(servers, n)), servers, servers[i].key)
    {
      PinNext(digest, files, servers, n, i);
    }
  }

  /** Pinning the remaining servers by force, one after the other. */
  lemma PinRemaining(digest: Digest, cmds: seq<Command>, servers: seq<Member>, n: nat) returns (r: seq<Command>)
    requires Valid(Object(servers)) && SharersAgree(servers) && ValidRun(cmds)
    requires n <= |servers| && FirstVerified(digest, Run(digest, cmds), servers, n)
    ensures ValidRun(r) && FirstVerified(digest, Run(digest, r), servers, |servers|)
    decreases |servers| - n
  {
    if n == |servers| {
      r := cmds;
    } else {
      RunSnoc(digest, cmds, ForcedPin(servers, n));
      PinStep(digest, Run(digest, cmds), servers, n);
      r := PinRemaining(digest, cmds + [ForcedPin(servers, n)], servers, n + 1);
    }
  }

  /** Some run makes all listed servers verify exactly when some are listed and those that share a pin file agree. */
  lemma VerifiableExactly(digest: Digest, servers: seq<Member>)
    requires Injective(digest) && Valid(Object(servers))
    ensures (exists cmds | ValidRun(cmds) :: ExitCode(digest, Run(digest, cmds), Verify(None, Loaded(servers))) == 0)
            <==> servers != [] && SharersAgree(servers)
  {
    if cmds :| ValidRun(cmds) && ExitCode(digest, Run(digest, cmds), Verify(None, Loaded(servers))) == 0 {
      VerifyAllCode(digest, Run(digest, cmds), servers);
      forall i, j | 0 <= i < |servers| && 0 <= j < |servers| && Sanitize(servers[i].key) == Sanitize(servers[j].key)
        ensures Same(servers[i].value, servers[j].value)
      {
        LookupAt(servers, i);
        LookupAt(servers, j);
        CanonDecidesSame(servers[i].value, servers[j].value);
      }
    }
    if servers != [] && SharersAgree(servers) {
      var cmds := PinRemaining(digest, [], servers, 0);
      VerifyAllCode(digest, Run(digest, cmds), servers);
    }
  }

  /** Trust on first use: a record stands through every run that holds neither a forced pin nor an unpin
      of a server with the same pin file. */
  lemma {:induction false} FirstUseStands(digest: Digest, first: seq<Command>, later: seq<Command>, slot: string)
    requires IsReadable(Run(digest, first), slot)
    requires forall j | 0 <= j < |later| && !later[j].Verify? && later[j].name.Some?
                        && Sanitize(later[j].name.value) == slot ::
               later[j].Pin? && !later[j].force
    ensures var after := Run(digest, first + later); slot in after && after[slot] == Run(digest, first)[slot]
  {
    if later == [] {
      assert first + later == first;
    } else {
      var n := |later| - 1;
      FirstUseStands(digest, first, later[..n], slot);
      assert (first + later)[..|first + later| - 1] == first + later[..n];
      StepAt(digest, Run(digest, first + later[..n]), later[n], slot);
    }
  }

  /** A pin that fails never leaves a record that verifies where none did, but a forced one may lose a record. */
  lemma FailedPin(digest: Digest, files: Files, c: Command, slot: string)
    requires c.Pin? && !c.write.Written?
    ensures var after := Step(digest, files, c);
      && (IsReadable(after, slot) <==> IsReadable(files, slot) && !Writes(files, c, slot))
      && (IsReadable(after, slot) ==> after[slot] == files[slot])
  {
    StepAt(digest, files, c, slot);
  }

  /** The exit code never tells a changed entry from a missing pin: once the configuration loads, it is 0 or 1. */
  lemma VerifyExitCodes(digest: Digest, files: Files, name: Option<string>, config: Config)
    ensures var code := ExitCode(digest, files, Verify(name, config));
      && (code == 2 <==> config.NotLoaded?)
      && (code == 0 <==> config.Loaded? && NamesToVerify(Verify(name, config)) != []
                         && forall i | 0 <= i < |NamesToVerify(Verify(name, config))| ::
                              Verified(digest, files, config.servers, NamesToVerify(Verify(name, config))[i]))
  {
    if config.Loaded? {
      var names := NamesToVerify(Verify(name, config));
      forall i | 0 <= i < |names| ensures names[i] in names {}
    }
  }
}
