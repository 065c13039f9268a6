/**
 * jobs_to_csv's `CSV_Writer`: a writer bound to one output path that
 * writes the first observation's keys as the header (truncating the
 * file) and every observation's values as one appended row. The file,
 * its directory and the `csv` module's verdict on a row are the
 * writer's environment and are modelled as state and a parameter.
 */
module CsvWriter {
  import opened Wrappers
  import opened PyValues
  import opened Records

  /** A csv line: the cells `csv.writer.writerow` is given. */
  type Row = seq<Value>

  /** What `csv.writer` reports when it refuses a row: its line number and the error text, both as printed. */
  datatype CsvError = CsvError(line: string, text: string)

  /** How a write ends: done, the process exiting with a message, or an exception escaping. */
  datatype WriteOutcome = Written | Exited(message: string) | Raised(error: PyError)

  /** Iterating a dict yields its keys: the header row. */
  function HeaderRow(observation: Record): (r: Row)
    ensures |r| == |observation|
    ensures forall i :: 0 <= i < |r| ==> r[i] == Str(observation[i].0)
  {
    if observation == [] then [] else [Str(observation[0].0)] + HeaderRow(observation[1..])
  }

  /** `tuple(dictionary.values())`: the data row. */
  function ValuesRow(observation: Record): (r: Row)
    ensures |r| == |observation|
    ensures forall i :: 0 <= i < |r| ==> r[i] == observation[i].1
  {
    if observation == [] then [] else [observation[0].1] + ValuesRow(observation[1..])
  }

  /** The file after writing `observations` through a fresh writer: the first one's header, then one row each. */
  function FileRows(observations: seq<Record>): (rows: seq<Row>)
    requires observations != []
    ensures |rows| == |observations| + 1
    ensures rows[0] == HeaderRow(observations[0])
    ensures forall i :: 0 <= i < |observations| ==> rows[i + 1] == ValuesRow(observations[i])
  {
    if |observations| == 1 then [HeaderRow(observations[0]), ValuesRow(observations[0])]
    else FileRows(observations[..|observations| - 1]) + [ValuesRow(observations[|observations| - 1])]
  }

  /** The text after the last "/" is dropped, then trailing slashes unless the head is only slashes (`os.path.dirname`). */
  function Dirname(path: string): (d: string)
    ensures |d| <= |path|
  {
    var head := path[..SepEnd(path)];
    if head != [] && !AllSlashes(head) then RStripSlashes(head) else head
  }

  /** One past the last "/", or 0 without one. */
  function SepEnd(s: string): (i: nat)
    ensures i <= |s|
    ensures i > 0 ==> s[i - 1] == '/'
    ensures forall k :: i <= k < |s| ==> s[k] != '/'
  {
    if s == [] then 0
    else if s[|s| - 1] == '/' then |s|
    else SepEnd(s[..|s| - 1])
  }

  predicate AllSlashes(s: string)
  {
    forall k :: 0 <= k < |s| ==> s[k] == '/'
  }

  function RStripSlashes(s: string): (r: string)
    ensures r <= s
    ensures r == [] || r[|r| - 1] != '/'
  {
    if s != [] && s[|s| - 1] == '/' then RStripSlashes(s[..|s| - 1]) else s
  }

  /** A path joined from a directory and a file name gives that directory back; a bare file name has none. */
  lemma DirnameOfJoin(dir: string, name: string)
    requires dir != [] && dir[|dir| - 1] != '/'
    requires forall k :: 0 <= k < |name| ==> name[k] != '/'
    ensures Dirname(dir + "/" + name) == dir
    ensures Dirname(name) == []
  {
    var path := dir + "/" + name;
    assert path[|dir|] == '/';
    assert forall k :: |dir| < k < |path| ==> path[k] == name[k - |dir| - 1];
    assert SepEnd(path) == |dir| + 1;
    assert path[..|dir| + 1] == dir + "/";
    assert (dir + "/")[..|dir|] == dir;
    assert !AllSlashes(dir + "/") by {
      assert (dir + "/")[|dir| - 1] == dir[|dir| - 1];
    }
    assert RStripSlashes(dir) == dir;
    assert RStripSlashes(dir + "/") == RStripSlashes(dir);
    assert SepEnd(name) == 0;
  }

  const Indent := "                    "

  /** `_print_write_error`'s exit text: the path, then the writer's line number, then the error. */
  function WriteErrorMessage(path: string, e: CsvError): (m: string)
    ensures "File:\n" <= m
  {
    "File:\n" + Indent + path + "\n" + Indent + "Line:" + Indent + "\n" + e.line + Indent + "\n Error:" + Indent + "\n" + e.text
  }

  class Writer {
    const csvPath: string
    const directoryPath: string
    var counter: int
    /** Whether the output directory exists. */
    var directoryExists: bool
    /** The output file: absent, or its rows. */
    var file: Option<seq<Row>>
    /** The observations written so far, in order. */
    ghost var written: seq<Record>

    /**
     * `counter - 1` observations have been written, and once there is
     * one the file holds exactly the header and their rows.
     */
    ghost predicate Valid()
      reads this
    {
      counter == |written| + 1
      && (written != [] ==> file == Some(FileRows(written)))
    }

    /**
     * A writer for `csvPath`, given whether its directory and file exist
     * beforehand. `os.path.exists("")` is false, so a path without a
     * directory part never counts as having its directory.
     */
    constructor (csvPath: string, directoryPresent: bool, existing: Option<seq<Row>>)
      ensures Valid() && counter == 1 && written == []
      ensures this.csvPath == csvPath && directoryPath == Dirname(csvPath)
      ensures directoryExists == (directoryPresent && Dirname(csvPath) != [])
      ensures file == existing
    {
      this.csvPath := csvPath;
      directoryPath := Dirname(csvPath);
      counter := 1;
      directoryExists := directoryPresent && Dirname(csvPath) != [];
      file := existing;
      written := [];
    }

    /**
     * The header: the directory is created when missing (`os.makedirs`
     * fails on an empty directory name), then the file is opened in mode
     * "w", which empties it, and the observation's keys are written.
     */
    method WriteHeader(header: Record, csvError: Row -> Option<CsvError>) returns (out: WriteOutcome)
      modifies this
      ensures counter == old(counter) && written == old(written)
      ensures !old(directoryExists) && directoryPath == [] ==>
                out == Raised(FileNotFound(directoryPath)) && file == old(file) && !directoryExists
      ensures old(directoryExists) || directoryPath != [] ==>
                directoryExists
                && (csvError(HeaderRow(header)).None? ==> out == Written && file == Some([HeaderRow(header)]))
                && (csvError(HeaderRow(header)).Some? ==>
                      out == Exited(WriteErrorMessage(csvPath, csvError(HeaderRow(header)).value)) && file == Some([]))
    {
      if !directoryExists {
        if directoryPath == [] {
          return Raised(FileNotFound(directoryPath));
        }
        directoryExists := true;
      }
      file := Some([]);
      var row := HeaderRow(header);
      match csvError(row)
      case Some(e) =>
        out := Exited(WriteErrorMessage(csvPath, e));
      case None =>
        file := Some([row]);
        out := Written;
    }

    /** One data row, appended to a file that must already exist. */
    method WriteRow(row: Record, csvError: Row -> Option<CsvError>) returns (out: WriteOutcome)
      modifies this
      ensures counter == old(counter) && written == old(written) && directoryExists == old(directoryExists)
      ensures old(file).None? ==> out == Raised(FileNotFound(csvPath)) && file == old(file)
      ensures old(file).Some? && csvError(ValuesRow(row)).None? ==>
                out == Written && file == Some(old(file).value + [ValuesRow(row)])
      ensures old(file).Some? && csvError(ValuesRow(row)).Some? ==>
                out == Exited(WriteErrorMessage(csvPath, csvError(ValuesRow(row)).value)) && file == old(file)
    {
      if file.None? {
        return Raised(FileNotFound(csvPath));
      }
      var values := ValuesRow(row);
      match csvError(values)
      case Some(e) =>
        out := Exited(WriteErrorMessage(csvPath, e));
      case None =>
        file := Some(file.value + [values]);
        out := Written;
    }

    /**
     * `write_observation`: the header first when nothing has been
     * written, then the row; only a completed write advances the counter.
     */
    method WriteObservation(observation: Record, csvError: Row -> Option<CsvError>) returns (out: WriteOutcome)
      requires Valid()
      modifies this
      ensures Valid()
      ensures out == Written ==> written == old(written) + [observation] && counter == old(counter) + 1
      ensures out != Written ==> written == old(written) && counter == old(counter)
      ensures out == Written && old(counter) == 1 ==> file == Some([HeaderRow(observation), ValuesRow(observation)])
      ensures out == Written <==>
                (old(counter) > 1 || old(directoryExists) || directoryPath != [])
                && (old(counter) == 1 ==> csvError(HeaderRow(observation)).None?)
                && csvError(ValuesRow(observation)).None?
    {
      if counter == 1 {
        out := WriteHeader(observation, csvError);
        if out != Written {
          return;
        }
      }
      out := WriteRow(observation, csvError);
      if out != Written {
        return;
      }
      counter := counter + 1;
      written := written + [observation];
      if |written| == 1 {
        assert written == [observation];
        assert [HeaderRow(observation)] + [ValuesRow(observation)] == FileRows(written);
      } else {
        assert written[..|written| - 1] == old(written);
      }
    }
  }
}
