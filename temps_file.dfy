/** The persisted aggregate: temps.json holds the running maximum, minimum
    and reading count, and is trusted on load only while it is younger than
    MAX_FILE_AGE seconds. */
module TempsFile {
  import opened Common

  /** Maximum age, in seconds, of a record that load_temps still returns. */
  const MAX_FILE_AGE: int := 600

  /** The (max_temp, min_temp, count) triple, temperatures in tenths of a
      degree; a temperature is None when it was saved as JSON null. */
  datatype Triple = Triple(maxTemp: Option<int>, minTemp: Option<int>, count: int)

  /** What load_temps returns when it has no record to give. */
  const ABSENT: Triple := Triple(None, None, 0)

  /** The file on the flash filesystem: absent, present but not readable
      (open raises OSError), present with content json.load rejects, or
      holding the record save_temps wrote. */
  datatype FileState = Missing | Unreadable | Malformed | Holds(record: Triple)

  /** load_temps either returns a triple or lets json.load's ValueError
      escape: only OSError is caught. */
  datatype LoadResult = Loaded(triple: Triple) | ValueError

  /** Whether a file last written at mtime is still young enough at now. */
  predicate Recent(mtime: int, now: int) {
    now - mtime < MAX_FILE_AGE
  }

  class TempsStore {
    var file: FileState
    /** Modification time of the file, in seconds. */
    var mtime: int

    constructor (file: FileState, mtime: int)
      ensures this.file == file && this.mtime == mtime
    {
      this.file := file;
      this.mtime := mtime;
    }

    /** temps_file.load_temps at clock time now (seconds). */
    method Load(now: int) returns (r: LoadResult)
      ensures file.Holds? && Recent(mtime, now) ==> r == Loaded(file.record)
      ensures r.ValueError? <==> file.Malformed? && Recent(mtime, now)
      ensures !(file.Holds? && Recent(mtime, now)) && !r.ValueError? ==> r == Loaded(ABSENT)
    {
      if file.Missing? {
        // uos.stat raises OSError
        r := Loaded(ABSENT);
      } else if now - mtime < MAX_FILE_AGE {
        match file
        case Unreadable =>
          // open raises OSError
          r := Loaded(ABSENT);
        case Malformed =>
          r := ValueError;
        case Holds(t) =>
          r := Loaded(t);
      } else {
        r := Loaded(ABSENT);
      }
    }

    /** temps_file.save_temps: overwrite the file with the three fields and
        stamp it with the clock time now. */
    method Save(maxTemp: Option<int>, minTemp: Option<int>, count: int, now: int)
      modifies this
      ensures file == Holds(Triple(maxTemp, minTemp, count)) && mtime == now
    {
      file := Holds(Triple(maxTemp, minTemp, count));
      mtime := now;
    }
  }

  /** Saving and loading within the window gives the saved triple back;
      after the window, the default. */
  method SaveThenLoad(store: TempsStore, maxTemp: Option<int>, minTemp: Option<int>, count: int,
                      saved: int, now: int) returns (r: LoadResult)
    modifies store
    ensures now - saved < MAX_FILE_AGE ==> r == Loaded(Triple(maxTemp, minTemp, count))
    ensures now - saved >= MAX_FILE_AGE ==> r == Loaded(ABSENT)
  {
    store.Save(maxTemp, minTemp, count, saved);
    r := store.Load(now);
  }
}
