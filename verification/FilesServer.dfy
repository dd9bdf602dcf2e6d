/** The files server's writes: compare-and-swap on content, a backup before an overwrite, and what a
    crash between any two file-system steps leaves behind. */
module FilesServer {
  import opened Prelude

  newtype byte = x: int | 0 <= x < 256

  type Bytes = seq<byte>

  /** Documents by path, and the temporary files no tool can name. */
  datatype Disk = Disk(docs: map<string, Bytes>, temps: map<nat, Bytes>)

  // ---- File-system steps ----------------------------------------------------------------------------

  datatype Step =
    | MakeTemp(temp: nat)
    | Append(temp: nat, next: byte)
    | Link(temp: nat, path: string)
    | Rename(temp: nat, path: string)
    | Unlink(temp: nat)

  function Perform(d: Disk, s: Step): Disk {
    match s
    case MakeTemp(t) => d.(temps := d.temps[t := []])
    case Append(t, b) => if t in d.temps then d.(temps := d.temps[t := d.temps[t] + [b]]) else d
    case Link(t, path) => if t in d.temps && path !in d.docs then d.(docs := d.docs[path := d.temps[t]]) else d
    case Rename(t, path) =>
      if t in d.temps then Disk(d.docs[path := d.temps[t]], d.temps - {t}) else d
    case Unlink(t) => d.(temps := d.temps - {t})
  }

  function Run(d: Disk, steps: seq<Step>): Disk {
    if steps == [] then d else Perform(Run(d, steps[..|steps| - 1]), steps[|steps| - 1])
  }

  /** Writing `data` beside `path`, a byte at a time, and moving it into place. Creating, the move is
      a link, which does not replace anything. */
  function WriteSteps(t: nat, path: string, data: Bytes, creating: bool): seq<Step> {
    [MakeTemp(t)] + seq(|data|, i requires 0 <= i < |data| => Append(t, data[i]))
    + if creating then [Link(t, path), Unlink(t)] else [Rename(t, path)]
  }

  // ---- The tools -------------------------------------------------------------------------------------

  datatype Error = TOO_LARGE | NOT_FOUND | STALE

  datatype Call =
    | WriteFile(path: string, data: Bytes, mayReplace: Option<string>)
    | OverwriteDocument(path: string, data: Bytes, expected: string)

  /** What a call has found it may do: whether it creates, the hash of what it replaces, and the
      backup it must make first. */
  datatype Plan = Plan(creating: bool, previous: Option<string>, backup: Option<(string, Bytes)>)

  datatype Server = Server(maxBytes: nat, hash: Bytes -> string) {

    /** A file's content, if there is a file; none larger than the limit is read. */
    function Read(d: Disk, path: string): Result<Option<Bytes>, Error> {
      if path !in d.docs then Ok(None)
      else if |d.docs[path]| > maxBytes then Err(TOO_LARGE)
      else Ok(Some(d.docs[path]))
    }

    /** Beside the document, named for the first twelve characters of the version's hash. */
    function BackupPath(path: string, current: Bytes): string { path + ".bak-" + Short(hash(current)) }

    static function Short(digest: string): string { if |digest| <= 12 then digest else digest[..12] }

    function PlanWrite(d: Disk, path: string, data: Bytes, expected: Option<string>): Result<Plan, Error> {
      if |data| > maxBytes then Err(TOO_LARGE)
      else
        match Read(d, path)
        case Err(e) => Err(e)
        case Ok(None) => if expected.Some? then Err(STALE) else Ok(Plan(true, None, None))
        case Ok(Some(current)) =>
          if expected != Some(hash(current)) then Err(STALE) else Ok(Plan(false, expected, None))
    }

    function PlanOverwrite(d: Disk, path: string, data: Bytes, expected: string): Result<Plan, Error> {
      if |data| > maxBytes then Err(TOO_LARGE)
      else
        match Read(d, path)
        case Err(e) => Err(e)
        case Ok(None) => Err(NOT_FOUND)
        case Ok(Some(current)) =>
          if expected != hash(current) then Err(STALE)
          else
            match Read(d, BackupPath(path, current))
            case Err(e) => Err(e)
            case Ok(None) => Ok(Plan(false, Some(expected), Some((BackupPath(path, current), current))))
            case Ok(Some(kept)) => if kept != current then Err(STALE) else Ok(Plan(false, Some(expected), None))
    }

    function PlanOf(d: Disk, c: Call): Result<Plan, Error> {
      match c
      case WriteFile(path, data, expected) => PlanWrite(d, path, data, expected)
      case OverwriteDocument(path, data, expected) => PlanOverwrite(d, path, data, expected)
    }
  }

  ghost predicate Holds(d: Disk, path: string, upTo: nat) { path in d.docs && |d.docs[path]| <= upTo }

  ghost predicate HoldsMore(d: Disk, path: string, upTo: nat) { path in d.docs && upTo < |d.docs[path]| }

  /** A write is let through exactly if it is of the version on disk, or of none when there is none, and
      neither is too large; each refusal says which of these it was. */
  lemma WritesAreRefusedExactly(v: Server, d: Disk, path: string, data: Bytes, expected: Option<string>)
    ensures var r := v.PlanWrite(d, path, data, expected);
            var tooLarge := v.maxBytes < |data| || HoldsMore(d, path, v.maxBytes);
            var matches := if path in d.docs then expected == Some(v.hash(d.docs[path])) else expected == None;
            && (r == Err(TOO_LARGE) <==> tooLarge)
            && (r == Err(STALE) <==> !tooLarge && !matches)
            && (r == Ok(Plan(path !in d.docs, expected, None)) <==> !tooLarge && matches)
  {
  }

  /** An overwrite is let through exactly if it names the version on disk and that version's backup is
      there already or can be made; and the backup to make is of that version, beside it. */
  lemma OverwritesAreRefusedExactly(v: Server, d: Disk, path: string, data: Bytes, expected: string)
    ensures var r := v.PlanOverwrite(d, path, data, expected);
            if v.maxBytes < |data| || HoldsMore(d, path, v.maxBytes) then r == Err(TOO_LARGE)
            else if path !in d.docs then r == Err(NOT_FOUND)
            else
              var current, digest := d.docs[path], v.hash(d.docs[path]);
              var kept := path + ".bak-" + if |digest| < 12 then digest else digest[..12];
              if expected != digest then r == Err(STALE)
              else
                && (r == Err(TOO_LARGE) <==> HoldsMore(d, kept, v.maxBytes))
                && (r == Err(STALE) <==> Holds(d, kept, v.maxBytes) && d.docs[kept] != current)
                && (r == Ok(Plan(false, Some(digest), None)) <==> Holds(d, kept, v.maxBytes) && d.docs[kept] == current)
                && (r == Ok(Plan(false, Some(digest), Some((kept, current)))) <==> kept !in d.docs)
  {
    if path in d.docs {
      var digest := v.hash(d.docs[path]);
      if |digest| == 12 { assert digest[..12] == digest; }
    }
  }

  function BackupSteps(p: Plan, t: nat): seq<Step> {
    if p.backup.None? then [] else WriteSteps(t, p.backup.value.0, p.backup.value.1, true)
  }

  function StepsOf(p: Plan, c: Call, t1: nat, t2: nat): seq<Step> {
    BackupSteps(p, t1) + WriteSteps(t2, c.path, c.data, p.creating)
  }

  // ---- What a prefix of the steps leaves ----------------------------------------------------------------

  lemma RunPrefix(d: Disk, steps: seq<Step>, k: nat)
    requires k < |steps|
    ensures Run(d, steps[..k + 1]) == Perform(Run(d, steps[..k]), steps[k])
  {
    assert steps[..k + 1][..k] == steps[..k];
  }

  function WriteStepAt(t: nat, path: string, data: Bytes, creating: bool, k: nat): Step {
    if k == 0 then MakeTemp(t)
    else if k <= |data| then Append(t, data[k - 1])
    else if !creating then Rename(t, path)
    else if k == |data| + 1 then Link(t, path)
    else Unlink(t)
  }

  /** The disk after the first `k` steps of a write. */
  function WrittenUpTo(d: Disk, t: nat, path: string, data: Bytes, creating: bool, k: nat): Disk
    requires k <= |WriteSteps(t, path, data, creating)|
  {
    Run(d, WriteSteps(t, path, data, creating)[..k])
  }

  lemma WriteStepsAre(t: nat, path: string, data: Bytes, creating: bool, k: nat)
    ensures |WriteSteps(t, path, data, creating)| == |data| + if creating then 3 else 2
    ensures k < |WriteSteps(t, path, data, creating)| ==>
              WriteSteps(t, path, data, creating)[k] == WriteStepAt(t, path, data, creating, k)
  {
  }

  lemma WriteGoesOn(d: Disk, t: nat, path: string, data: Bytes, creating: bool, k: nat)
    requires k < |WriteSteps(t, path, data, creating)|
    ensures WrittenUpTo(d, t, path, data, creating, k + 1)
         == Perform(WrittenUpTo(d, t, path, data, creating, k), WriteStepAt(t, path, data, creating, k))
  {
    RunPrefix(d, WriteSteps(t, path, data, creating), k);
    WriteStepsAre(t, path, data, creating, k);
  }

  lemma WriteStartsAndEnds(d: Disk, t: nat, path: string, data: Bytes, creating: bool)
    ensures WrittenUpTo(d, t, path, data, creating, 0) == d
    ensures WrittenUpTo(d, t, path, data, creating, |WriteSteps(t, path, data, creating)|)
         == Run(d, WriteSteps(t, path, data, creating))
  {
    var steps := WriteSteps(t, path, data, creating);
    assert steps[..|steps|] == steps && steps[..0] == [];
  }

  lemma {:induction false} RunConcat(d: Disk, a: seq<Step>, b: seq<Step>)
    ensures Run(d, a + b) == Run(Run(d, a), b)
  {
    if b == [] {
      assert a + b == a;
    } else {
      assert (a + b)[..|a + b| - 1] == a + b[..|b| - 1];
      RunConcat(d, a, b[..|b| - 1]);
    }
  }

  /** Filling the temporary file touches no document. */
  lemma {:induction false} FillingIsInvisible(d: Disk, t: nat, path: string, data: Bytes, creating: bool, k: nat)
    requires k <= |data|
    ensures var after := Run(d, WriteSteps(t, path, data, creating)[..k + 1]);
            after.docs == d.docs && t in after.temps && after.temps[t] == data[..k]
  {
    var steps := WriteSteps(t, path, data, creating);
    RunPrefix(d, steps, k);
    if k == 0 {
      assert steps[..0] == [];
    } else {
      FillingIsInvisible(d, t, path, data, creating, k - 1);
      assert steps[k] == Append(t, data[k - 1]);
      assert data[..k - 1] + [data[k - 1]] == data[..k];
    }
  }

  /** The step that puts the data in place. */
  function CommitAt(data: Bytes): nat { |data| + 1 }

  lemma DocsOnceLanded(d: Disk, t: nat, path: string, data: Bytes, creating: bool, k: nat)
    requires creating ==> path !in d.docs
    requires CommitAt(data) < k <= |WriteSteps(t, path, data, creating)|
    ensures WrittenUpTo(d, t, path, data, creating, k).docs == d.docs[path := data]
  {
    var n := CommitAt(data);
    FillingIsInvisible(d, t, path, data, creating, |data|);
    assert data[..|data|] == data;
    WriteStepsAre(t, path, data, creating, n);
    WriteGoesOn(d, t, path, data, creating, n);
    if k == n + 2 { WriteGoesOn(d, t, path, data, creating, n + 1); }
  }

  /** The documents after the first `k` steps: as they were, or with the whole of `data` in place. */
  lemma DocsAfterWrite(d: Disk, t: nat, path: string, data: Bytes, creating: bool, k: nat)
    requires creating ==> path !in d.docs
    requires k <= |WriteSteps(t, path, data, creating)|
    ensures Run(d, WriteSteps(t, path, data, creating)[..k]).docs
         == if k <= CommitAt(data) then d.docs else d.docs[path := data]
  {
    var steps := WriteSteps(t, path, data, creating);
    var n := CommitAt(data);
    if k == 0 {
    } else if k <= n {
      FillingIsInvisible(d, t, path, data, creating, k - 1);
    } else {
      DocsOnceLanded(d, t, path, data, creating, k);
    }
  }

  // ---- What a prefix of a call leaves -------------------------------------------------------------------

  /** What a plan knows of the documents it was made from. */
  lemma PlanKnows(v: Server, d: Disk, c: Call, p: Plan)
    requires v.PlanOf(d, c) == Ok(p)
    ensures p.creating <==> c.path !in d.docs
    ensures p.previous == if c.path in d.docs then Some(v.hash(d.docs[c.path])) else None
    ensures p.previous == if c.WriteFile? then c.mayReplace else Some(c.expected)
    ensures p.backup.Some? ==> c.path in d.docs && p.backup.value.1 == d.docs[c.path]
    ensures p.backup.Some? ==> p.backup.value.0 !in d.docs && p.backup.value.0 != c.path
    ensures c.OverwriteDocument? ==> c.path in d.docs
    ensures c.OverwriteDocument? && p.backup.None? ==> exists kept :: kept != c.path && HoldsAt(d, kept, d.docs[c.path])
  {
    if c.path in d.docs {
      var b := v.BackupPath(c.path, d.docs[c.path]);
      assert |b| > |c.path|;
      assert c.OverwriteDocument? && p.backup.None? ==> HoldsAt(d, b, d.docs[c.path]);
    }
  }

  predicate HoldsAt(d: Disk, path: string, content: Bytes) { path in d.docs && d.docs[path] == content }

  /** The backup's step that puts it in place, counting none as before everything. */
  predicate BackedUp(p: Plan, k: nat) { p.backup.Some? && k > CommitAt(p.backup.value.1) }

  /** How many of a call's steps come before the one that replaces the document. */
  function LandsAfter(p: Plan, c: Call): nat { |BackupSteps(p, 0)| + CommitAt(c.data) }

  function WithBackup(d: Disk, p: Plan): map<string, Bytes> {
    if p.backup.None? then d.docs else d.docs[p.backup.value.0 := p.backup.value.1]
  }

  lemma BackupDone(d: Disk, p: Plan, t: nat)
    requires p.backup.Some? ==> p.backup.value.0 !in d.docs
    ensures Run(d, BackupSteps(p, t)).docs == WithBackup(d, p)
  {
    if p.backup.Some? {
      var (path, content) := p.backup.value;
      var steps := WriteSteps(t, path, content, true);
      DocsAfterWrite(d, t, path, content, true, |steps|);
      assert steps[..|steps|] == steps;
    }
  }

  lemma TakeOfConcat<T>(a: seq<T>, b: seq<T>, k: nat)
    requires k <= |a + b|
    ensures (a + b)[..k] == if k <= |a| then a[..k] else a + b[..k - |a|]
  {
  }

  predicate PlanFits(d: Disk, c: Call, p: Plan) {
    && (p.creating ==> c.path !in d.docs)
    && (p.backup.Some? ==> p.backup.value.0 !in d.docs && p.backup.value.0 != c.path && c.path in d.docs)
  }

  lemma DocsDuringBackup(d: Disk, c: Call, p: Plan, t1: nat, t2: nat, k: nat)
    requires PlanFits(d, c, p) && k <= |BackupSteps(p, t1)|
    ensures Run(d, StepsOf(p, c, t1, t2)[..k]).docs == if BackedUp(p, k) then WithBackup(d, p) else d.docs
  {
    TakeOfConcat(BackupSteps(p, t1), WriteSteps(t2, c.path, c.data, p.creating), k);
    if p.backup.Some? { DocsAfterWrite(d, t1, p.backup.value.0, p.backup.value.1, true, k); }
  }

  lemma DocsDuringWrite(d: Disk, c: Call, p: Plan, t1: nat, t2: nat, k: nat)
    requires PlanFits(d, c, p) && |BackupSteps(p, t1)| < k <= |StepsOf(p, c, t1, t2)|
    ensures Run(d, StepsOf(p, c, t1, t2)[..k]).docs
         == if k > LandsAfter(p, c) then WithBackup(d, p)[c.path := c.data] else WithBackup(d, p)
  {
    var a, b := BackupSteps(p, t1), WriteSteps(t2, c.path, c.data, p.creating);
    TakeOfConcat(a, b, k);
    RunConcat(d, a, b[..k - |a|]);
    BackupDone(d, p, t1);
    DocsAfterWrite(Run(d, a), t2, c.path, c.data, p.creating, k - |a|);
  }

  /** The documents after the first `k` steps of a call: untouched, then with the backup, then with
      the backup and the new content. */
  lemma DocsAfterCall(v: Server, d: Disk, c: Call, p: Plan, t1: nat, t2: nat, k: nat)
    requires v.PlanOf(d, c) == Ok(p) && k <= |StepsOf(p, c, t1, t2)|
    ensures Run(d, StepsOf(p, c, t1, t2)[..k]).docs
         == if k > LandsAfter(p, c) then WithBackup(d, p)[c.path := c.data]
            else if BackedUp(p, k) then WithBackup(d, p)
            else d.docs
  {
    PlanKnows(v, d, c, p);
    if k <= |BackupSteps(p, t1)| {
      DocsDuringBackup(d, c, p, t1, t2, k);
    } else {
      DocsDuringWrite(d, c, p, t1, t2, k);
    }
  }

  // ---- Attempts that may crash ---------------------------------------------------------------------------

  /** A call that runs its first `cut` steps, or all of them, using these temporary names. */
  datatype Attempt = Attempt(call: Call, cut: nat, t1: nat, t2: nat)

  /** A write whose new content is in place. */
  datatype Landed = Landed(path: string, previous: Option<string>, data: Bytes)

  datatype World = World(disk: Disk, log: seq<Landed>)

  function Cut(steps: seq<Step>, cut: nat): nat { if cut < |steps| then cut else |steps| }

  function Try(v: Server, w: World, a: Attempt): World {
    match v.PlanOf(w.disk, a.call)
    case Err(_) => w
    case Ok(p) =>
      var steps := StepsOf(p, a.call, a.t1, a.t2);
      var k := Cut(steps, a.cut);
      World(Run(w.disk, steps[..k]),
            w.log + if k > LandsAfter(p, a.call) then [Landed(a.call.path, p.previous, a.call.data)] else [])
  }

  function TryAll(v: Server, w: World, attempts: seq<Attempt>): World {
    if attempts == [] then w else Try(v, TryAll(v, w, attempts[..|attempts| - 1]), attempts[|attempts| - 1])
  }

  // ---- Overwrites lose nothing -----------------------------------------------------------------------------

  ghost predicate NothingLost(before: Disk, after: Disk) {
    forall path :: path in before.docs ==> exists kept :: HoldsAt(after, kept, before.docs[path])
  }

  lemma OverwriteLosesNothing(v: Server, w: World, a: Attempt)
    requires a.call.OverwriteDocument?
    ensures NothingLost(w.disk, Try(v, w, a).disk)
  {
    var d, after := w.disk, Try(v, w, a).disk;
    match v.PlanOf(d, a.call)
    case Err(_) =>
      assert forall path :: path in d.docs ==> HoldsAt(after, path, d.docs[path]);
    case Ok(p) =>
      var steps := StepsOf(p, a.call, a.t1, a.t2);
      PlanKnows(v, d, a.call, p);
      DocsAfterCall(v, d, a.call, p, a.t1, a.t2, Cut(steps, a.cut));
      forall path | path in d.docs ensures exists kept :: HoldsAt(after, kept, d.docs[path]) {
        if path != a.call.path || after.docs[path] == d.docs[path] {
          assert HoldsAt(after, path, d.docs[path]);
        } else if p.backup.Some? {
          assert HoldsAt(after, p.backup.value.0, d.docs[path]);
        } else {
          var kept :| kept != path && HoldsAt(d, kept, d.docs[path]);
          assert HoldsAt(after, kept, d.docs[path]);
        }
      }
  }

  lemma LostNever(a: Disk, b: Disk, c: Disk)
    requires NothingLost(a, b) && NothingLost(b, c)
    ensures NothingLost(a, c)
  {
    forall path | path in a.docs ensures exists kept :: HoldsAt(c, kept, a.docs[path]) {
      var kept :| HoldsAt(b, kept, a.docs[path]);
      assert exists last :: HoldsAt(c, last, b.docs[kept]);
    }
  }

  /** Over any run of overwrites, each cut anywhere by a crash, every content that was ever in a
      document is still in one, whatever the hash. */
  lemma {:induction false} OverwritesLoseNothing(v: Server, w: World, attempts: seq<Attempt>)
    requires forall a :: a in attempts ==> a.call.OverwriteDocument?
    ensures NothingLost(w.disk, TryAll(v, w, attempts).disk)
  {
    if attempts == [] {
      assert forall path :: path in w.disk.docs ==> HoldsAt(w.disk, path, w.disk.docs[path]);
    } else {
      var n := |attempts| - 1;
      OverwritesLoseNothing(v, w, attempts[..n]);
      var before := TryAll(v, w, attempts[..n]);
      OverwriteLosesNothing(v, before, attempts[n]);
      LostNever(w.disk, before.disk, TryAll(v, w, attempts).disk);
    }
  }

  /** A document holds its whole old content or the whole new one, and nothing else changes but for a
      backup that appears; with either tool, cut anywhere. */
  lemma DocumentsAreWhole(v: Server, w: World, a: Attempt, path: string)
    ensures var before := w.disk.docs; var after := Try(v, w, a).disk.docs;
            && (path in before ==> path in after)
            && (path in after ==>
                  || (path in before && after[path] == before[path])
                  || (path == a.call.path && after[path] == a.call.data)
                  || (path !in before && a.call.path in before && after[path] == before[a.call.path]))
  {
    match v.PlanOf(w.disk, a.call)
    case Err(_) =>
    case Ok(p) =>
      PlanKnows(v, w.disk, a.call, p);
      DocsAfterCall(v, w.disk, a.call, p, a.t1, a.t2, Cut(StepsOf(p, a.call, a.t1, a.t2), a.cut));
  }

  /** A crash before the new content lands can be retried, and the retry ends as the first try would
      have. */
  lemma RetryFinishes(v: Server, d: Disk, c: Call, p: Plan, t1: nat, t2: nat, k: nat, t3: nat, t4: nat)
    requires c.OverwriteDocument? && v.PlanOf(d, c) == Ok(p)
    requires k <= LandsAfter(p, c) && k <= |StepsOf(p, c, t1, t2)|
    ensures var crashed := Run(d, StepsOf(p, c, t1, t2)[..k]);
            && v.PlanOf(crashed, c).Ok?
            && Run(crashed, StepsOf(v.PlanOf(crashed, c).value, c, t3, t4)).docs
               == Run(d, StepsOf(p, c, t1, t2)).docs
  {
    var steps := StepsOf(p, c, t1, t2);
    var crashed := Run(d, steps[..k]);
    PlanKnows(v, d, c, p);
    DocsAfterCall(v, d, c, p, t1, t2, k);
    DocsAfterCall(v, d, c, p, t1, t2, |steps|);
    assert steps[..|steps|] == steps;
    var again := v.PlanOf(crashed, c).value;
    var retry := StepsOf(again, c, t3, t4);
    DocsAfterCall(v, crashed, c, again, t3, t4, |retry|);
    assert retry[..|retry|] == retry;
  }

  // ---- The chain of versions -----------------------------------------------------------------------------------

  /** What the last write that landed at `path` put there. */
  function LastLanded(log: seq<Landed>, path: string): Option<Bytes> {
    if log == [] then None
    else if log[|log| - 1].path == path then Some(log[|log| - 1].data)
    else LastLanded(log[..|log| - 1], path)
  }

  /** Each write that landed names the hash of what the one before it at that path put there. */
  predicate Chained(v: Server, log: seq<Landed>) {
    log == [] ||
    (var last := log[|log| - 1]; var past := log[..|log| - 1];
     && Chained(v, past)
     && (LastLanded(past, last.path).Some? ==> last.previous == Some(v.hash(LastLanded(past, last.path).value))))
  }

  ghost predicate Current(w: World) {
    forall path :: LastLanded(w.log, path).Some? ==> HoldsAt(w.disk, path, LastLanded(w.log, path).value)
  }

  lemma TryKeepsTheChain(v: Server, w: World, a: Attempt)
    requires Current(w) && Chained(v, w.log)
    ensures Current(Try(v, w, a)) && Chained(v, Try(v, w, a).log)
  {
    match v.PlanOf(w.disk, a.call)
    case Err(_) =>
    case Ok(p) =>
      var steps := StepsOf(p, a.call, a.t1, a.t2);
      var k := Cut(steps, a.cut);
      var after := Try(v, w, a);
      PlanKnows(v, w.disk, a.call, p);
      DocsAfterCall(v, w.disk, a.call, p, a.t1, a.t2, k);
      if k > LandsAfter(p, a.call) {
        assert after.log[..|w.log|] == w.log;
      } else {
        assert after.log == w.log;
      }
  }

  /** Per path, the writes of both tools that land form a chain, over any run with any crashes. */
  lemma {:induction false} VersionsFormAChain(v: Server, d: Disk, attempts: seq<Attempt>)
    ensures Current(TryAll(v, World(d, []), attempts)) && Chained(v, TryAll(v, World(d, []), attempts).log)
  {
    if attempts != [] {
      VersionsFormAChain(v, d, attempts[..|attempts| - 1]);
      TryKeepsTheChain(v, TryAll(v, World(d, []), attempts[..|attempts| - 1]), attempts[|attempts| - 1]);
    }
  }
}
