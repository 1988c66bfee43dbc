/**
 * src/utils/state_io.py: the last_seen logno checkpoint file state/last_seen_logno.json.
 */
module StateIo {
  import opened Wrappers

  const StatePath: string := "state/last_seen_logno.json"

  /**
   * The state file as json.load sees it: absent, not valid JSON, valid JSON that is not an
   * object (.get then raises AttributeError, which is not caught), or an object.
   */
  datatype StateFile =
    | Absent
    | Malformed
    | NotAnObject
    | Object(lastSeen: Option<int>, updatedAt: Option<string>)

  datatype LoadError = AttributeError

  /** load_last_seen */
  function LoadLastSeen(f: StateFile): (r: Result<int, LoadError>)
    ensures f == Absent || f == Malformed ==> r == Ok(0)
    ensures f.Object? ==> r == Ok(f.lastSeen.GetOr(0))
    ensures r.Err? <==> f == NotAnObject
  {
    match f
    case Absent => Ok(0)
    case Malformed => Ok(0)
    case NotAnObject => Err(AttributeError)
    case Object(v, _) => Ok(v.GetOr(0))
  }

  /** save_last_seen: the file is overwritten whatever it held. */
  function SaveLastSeen(logno: int, now: string): StateFile
  {
    Object(Some(logno), Some(now))
  }

  datatype StateInfo = StateInfo(lastSeenLogno: int, stateFile: string, fileExists: bool)

  /** get_state_info */
  function GetStateInfo(f: StateFile): (r: Result<StateInfo, LoadError>)
    ensures r.Ok? <==> LoadLastSeen(f).Ok?
    ensures r.Ok? ==> r.value.lastSeenLogno == LoadLastSeen(f).value && r.value.stateFile == StatePath
    ensures r.Ok? ==> (r.value.fileExists <==> f != Absent)
  {
    match LoadLastSeen(f)
    case Err(e) => Err(e)
    case Ok(n) => Ok(StateInfo(n, StatePath, f != Absent))
  }

  /**
   * Saving n and loading gives n back, whatever the file held before, including a larger
   * value: save_last_seen enforces no monotonicity.
   */
  lemma SaveThenLoad(n: int, now: string)
    ensures LoadLastSeen(SaveLastSeen(n, now)) == Ok(n)
    ensures GetStateInfo(SaveLastSeen(n, now)) == Ok(StateInfo(n, StatePath, true))
  {
  }

  /** The state file on disk as a mutable cell. */
  class StateStore {
    var file: StateFile

    constructor(file: StateFile)
      ensures this.file == file
    {
      this.file := file;
    }

    /** load_last_seen() */
    function Load(): Result<int, LoadError>
      reads this
    {
      LoadLastSeen(file)
    }

    /** save_last_seen(logno): the stored value is replaced whatever it was. */
    method Save(logno: int, now: string)
      modifies this
      ensures file == SaveLastSeen(logno, now)
      ensures Load() == Ok(logno)
    {
      file := SaveLastSeen(logno, now);
    }
  }
}
