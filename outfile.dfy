/**
 * Choosing where an export goes: standard output when no filename is
 * given (or the name is "-"), otherwise a path built from the directory
 * and the filename. Creating the file is not part of this choice.
 */
module OutFile {

  datatype Destination = Stdout | Path(path: string)

  /**
   * The directory, a '/' when the directory is non-empty, then the
   * filename. A trailing '/' already in the directory is kept.
   */
  function JoinPath(dir: string, filename: string): (p: string)
    ensures |p| == |dir| + (if dir == "" then 0 else 1) + |filename|
    ensures p[..|dir|] == dir
    ensures dir != "" ==> p[|dir|] == '/'
    ensures p[|p| - |filename|..] == filename
  {
    var prefix := if dir != "" then dir + "/" else dir;
    prefix + filename
  }

  /** Where an export with this filename and directory is written. */
  function GetOutFile(filename: string, dir: string): (d: Destination)
    ensures d.Stdout? <==> (filename == "" || filename == "-")
    ensures d.Path? ==> d.path == JoinPath(dir, filename)
  {
    if filename == "" || filename == "-" then Stdout else Path(JoinPath(dir, filename))
  }

  /** Within one directory, different filenames give different paths. */
  lemma JoinPathInjective(dir: string, f1: string, f2: string)
    requires JoinPath(dir, f1) == JoinPath(dir, f2)
    ensures f1 == f2
  {
    var p := JoinPath(dir, f1);
    assert |f1| == |f2|;
    assert f1 == p[|p| - |f1|..] == f2;
  }

  /** Standard output does not depend on the directory; a trailing '/' is not stripped. */
  lemma GetOutFileExamples(dir: string)
    ensures GetOutFile("-", dir) == Stdout && GetOutFile("", dir) == Stdout
    ensures GetOutFile("data.csv", "") == Path("data.csv")
    ensures GetOutFile("data.csv", "/out") == Path("/out/data.csv")
    ensures GetOutFile("data.csv", "/out/") == Path("/out//data.csv")
  {
    assert "/out" + "/" + "data.csv" == "/out/data.csv";
    assert "/out/" + "/" + "data.csv" == "/out//data.csv";
  }
}
