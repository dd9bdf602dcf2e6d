/** The file tools as the server runs them, against the steps they are made of. */
module FileTools {
  import opened Prelude
  import opened FilesServer

  class FilesMCPServer {
    const v: Server
    var disk: Disk

    constructor (v: Server, disk: Disk)
      ensures this.v == v && this.disk == disk
    {
      this.v, this.disk := v, disk;
    }

    method Do(s: Step)
      modifies this
      ensures disk == Perform(old(disk), s)
    {
      disk := Perform(disk, s);
    }

    /** Writes `data` beside `path`, then moves it into place in one step. */
    method ReplaceAtomically(t: nat, path: string, data: Bytes, creating: bool)
      modifies this
      ensures disk == Run(old(disk), WriteSteps(t, path, data, creating))
    {
      WriteStartsAndEnds(disk, t, path, data, creating);
      WriteStepsAre(t, path, data, creating, 0);
      WriteGoesOn(disk, t, path, data, creating, 0);
      Do(MakeTemp(t));
      var k := 0;
      while k < |data|
        invariant 0 <= k <= |data|
        invariant disk == WrittenUpTo(old(disk), t, path, data, creating, k + 1)
      {
        WriteGoesOn(old(disk), t, path, data, creating, k + 1);
        Do(Append(t, data[k]));
        k := k + 1;
      }
      WriteGoesOn(old(disk), t, path, data, creating, |data| + 1);
      if creating {
        WriteGoesOn(old(disk), t, path, data, creating, |data| + 2);
        Do(Link(t, path));
        Do(Unlink(t));
      } else {
        Do(Rename(t, path));
      }
    }

    /** Copies the current version beside the document, unless that backup is already there. */
    method BackUp(path: string, current: Bytes, t: nat) returns (r: Result<string, Error>)
      modifies this
      ensures var b := v.BackupPath(path, current);
              match v.Read(old(disk), b)
              case Err(e) => r == Err(e) && disk == old(disk)
              case Ok(None) => r == Ok(b) && disk == Run(old(disk), WriteSteps(t, b, current, true))
              case Ok(Some(kept)) => disk == old(disk) && r == if kept == current then Ok(b) else Err(STALE)
    {
      var backup := v.BackupPath(path, current);
      var existing := v.Read(disk, backup);
      if existing.Err? {
        return Err(existing.error);
      }
      if existing.value.None? {
        ReplaceAtomically(t, backup, current, true);
      } else if existing.value.value != current {
        return Err(STALE);
      }
      return Ok(backup);
    }

    /** Creates or replaces a file; answers the hash of what it replaced. */
    method Write(path: string, data: Bytes, expected: Option<string>, t: nat) returns (r: Result<Option<string>, Error>)
      modifies this
      ensures match v.PlanWrite(old(disk), path, data, expected)
              case Err(e) => r == Err(e) && disk == old(disk)
              case Ok(p) =>
                r == Ok(p.previous) && disk == Run(old(disk), StepsOf(p, WriteFile(path, data, expected), t, t))
    {
      if |data| > v.maxBytes {
        return Err(TOO_LARGE);
      }
      var current := v.Read(disk, path);
      if current.Err? {
        return Err(current.error);
      }
      var previous := if current.value.None? then None else Some(v.hash(current.value.value));
      if previous != expected {
        return Err(STALE);
      }
      ghost var p := Plan(current.value.None?, previous, None);
      assert StepsOf(p, WriteFile(path, data, expected), t, t) == WriteSteps(t, path, data, p.creating);
      ReplaceAtomically(t, path, data, current.value.None?);
      return Ok(previous);
    }

    /** Replaces a document, its backup on disk before it is touched; answers the hash of what it
        replaced. */
    method Overwrite(path: string, data: Bytes, expected: string, t1: nat, t2: nat) returns (r: Result<string, Error>)
      modifies this
      ensures match v.PlanOverwrite(old(disk), path, data, expected)
              case Err(e) => r == Err(e) && disk == old(disk)
              case Ok(p) =>
                && r == Ok(expected)
                && disk == Run(old(disk), StepsOf(p, OverwriteDocument(path, data, expected), t1, t2))
    {
      if |data| > v.maxBytes {
        return Err(TOO_LARGE);
      }
      var current := v.Read(disk, path);
      if current.Err? {
        return Err(current.error);
      }
      if current.value.None? {
        return Err(NOT_FOUND);
      }
      var previous := v.hash(current.value.value);
      if previous != expected {
        return Err(STALE);
      }
      ghost var p := v.PlanOverwrite(disk, path, data, expected);
      var backup := BackUp(path, current.value.value, t1);
      if backup.Err? {
        return Err(backup.error);
      }
      RunConcat(old(disk), BackupSteps(p.value, t1), WriteSteps(t2, path, data, false));
      ReplaceAtomically(t2, path, data, false);
      return Ok(previous);
    }
  }
}
