/** Adding the missing directory rows of a workspace, by direct insertion. */
module DirectoryBackfill {
  import opened Sequences
  import opened DirectoryPaths

  datatype Row = Row(name: string, isDirectory: bool)

  datatype Report = Report(files: nat, missing: nat, conflicts: nat, created: nat)

  function FilesOf(rows: map<string, Row>): set<string> {
    set uri | uri in rows && !rows[uri].isDirectory
  }

  function DirsOf(rows: map<string, Row>): set<string> {
    set uri | uri in rows && rows[uri].isDirectory
  }

  ghost function Needed(files: set<string>): set<string> {
    set file, dir | file in files && dir in Above(file) :: dir
  }

  ghost function Missing(rows: map<string, Row>): set<string> {
    Needed(FilesOf(rows)) - DirsOf(rows)
  }

  /** Directories asked for whose path a file has taken. */
  ghost function Conflicts(rows: map<string, Row>): set<string> {
    Missing(rows) * FilesOf(rows)
  }

  ghost function Creatable(rows: map<string, Row>): set<string> {
    Missing(rows) - FilesOf(rows)
  }

  function LastPart(uri: string): string {
    if uri == "" || uri[|uri| - 1] == '/' then "" else LastPart(uri[..|uri| - 1]) + [uri[|uri| - 1]]
  }

  function DirRow(uri: string): Row {
    Row(if LastPart(uri) == "" then "root" else LastPart(uri), true)
  }

  function WithDirs(rows: map<string, Row>, dirs: set<string>): map<string, Row> {
    rows + map uri | uri in dirs :: DirRow(uri)
  }

  ghost function Filled(rows: map<string, Row>): map<string, Row> {
    WithDirs(rows, Creatable(rows))
  }

  ghost predicate ShallowFirst(order: seq<string>) {
    forall i, j :: 0 <= i < j < |order| ==> Slashes(order[i]) <= Slashes(order[j])
  }

  function SetOf(s: seq<string>): set<string> {
    set x | x in s
  }

  ghost predicate IsShallowest(s: set<string>, d: string) {
    d in s && forall e :: e in s ==> Slashes(d) <= Slashes(e)
  }

  lemma {:induction false} SomeShallowest(s: set<string>)
    requires s != {}
    ensures exists d :: IsShallowest(s, d)
    decreases |s|
  {
    hide Slashes;
    var d :| d in s;
    var others := s - {d};
    assert s == others + {d};
    if others == {} {
      assert IsShallowest(s, d);
    } else {
      SomeShallowest(others);
      var e :| IsShallowest(others, e);
      assert IsShallowest(s, if Slashes(d) <= Slashes(e) then d else e);
    }
  }

  method SortByDepth(dirs: set<string>) returns (order: seq<string>)
    ensures SetOf(order) == dirs && Distinct(order) && ShallowFirst(order)
  {
    hide Slashes;
    order := [];
    var rest := dirs;
    while rest != {}
      invariant SetOf(order) + rest == dirs && SetOf(order) !! rest
      invariant Distinct(order) && ShallowFirst(order)
      invariant forall d, e :: d in order && e in rest ==> Slashes(d) <= Slashes(e)
    {
      SomeShallowest(rest);
      assert exists d :: d in rest && forall e :: e in rest ==> Slashes(d) <= Slashes(e) by {
        var low :| IsShallowest(rest, low);
      }
      var d :| d in rest && forall e :: e in rest ==> Slashes(d) <= Slashes(e);
      assert d !in SetOf(order);
      assert SetOf(order + [d]) == SetOf(order) + {d};
      order := order + [d];
      rest := rest - {d};
    }
  }

  lemma NoRowsYet(rows: map<string, Row>, order: seq<string>)
    ensures WithDirs(rows, SetOf(order[..0])) == rows
  {
  }

  lemma OneRowMore(rows: map<string, Row>, order: seq<string>, i: nat)
    requires i < |order| && Distinct(order) && forall uri :: uri in order ==> uri !in rows
    ensures var before := WithDirs(rows, SetOf(order[..i]));
            && order[i] !in before
            && WithDirs(rows, SetOf(order[..i + 1])) == before[order[i] := DirRow(order[i])]
  {
    hide WithDirs;
    assert order[..i + 1] == order[..i] + [order[i]];
    assert SetOf(order[..i + 1]) == SetOf(order[..i]) + {order[i]};
    assert order[i] in order && order[i] !in SetOf(order[..i]);
    WithOneMore(rows, SetOf(order[..i]), order[i]);
  }

  lemma WithOneMore(rows: map<string, Row>, dirs: set<string>, uri: string)
    requires uri !in rows && uri !in dirs
    ensures uri !in WithDirs(rows, dirs)
    ensures WithDirs(rows, dirs + {uri}) == WithDirs(rows, dirs)[uri := DirRow(uri)]
  {
    hide DirRow;
  }

  /** The file rows of one workspace; a path can be taken only once. */
  class FileTable {
    var rows: map<string, Row>

    constructor (rows: map<string, Row>)
      ensures this.rows == rows
    {
      this.rows := rows;
    }

    /** A second row for a path is rejected by the database and skipped. */
    method CreateDirRowInline(uri: string)
      modifies this
      ensures rows == if uri in old(rows) then old(rows) else old(rows)[uri := DirRow(uri)]
    {
      if uri !in rows {
        rows := rows[uri := DirRow(uri)];
      }
    }

    method CollectNeeded(files: set<string>) returns (needed: set<string>)
      ensures needed == Needed(files)
    {
      hide Above;
      needed := {};
      var rest := files;
      while rest != {}
        invariant rest <= files && needed == Needed(files - rest)
      {
        var file :| file in rest;
        var above := AncestorDirs(file);
        assert files - (rest - {file}) == (files - rest) + {file};
        NeededWith(files - rest, file);
        needed := needed + SetOf(above);
        rest := rest - {file};
      }
      assert files - {} == files;
    }

    method CreateDirRows(order: seq<string>)
      requires Distinct(order) && forall uri :: uri in order ==> uri !in rows
      modifies this
      ensures rows == WithDirs(old(rows), SetOf(order))
    {
      hide DirRow, WithDirs, SetOf, Distinct;
      NoRowsYet(rows, order);
      for i := 0 to |order|
        invariant rows == WithDirs(old(rows), SetOf(order[..i]))
      {
        OneRowMore(old(rows), order, i);
        CreateDirRowInline(order[i]);
      }
      assert order[..|order|] == order;
    }

    /** `order` says which rows were inserted, and in what order. */
    method ProcessWorkspace(apply: bool) returns (report: Report, ghost order: seq<string>)
      modifies this
      ensures rows == if apply then Filled(old(rows)) else old(rows)
      ensures report == Report(|FilesOf(old(rows))|, |Missing(old(rows))|, |Conflicts(old(rows))|,
                               if apply then |Creatable(old(rows))| else 0)
      ensures apply ==> SetOf(order) == Creatable(old(rows)) && Distinct(order) && ShallowFirst(order)
    {
      hide Above, Needed, Slashes, ShallowFirst, Distinct, WithDirs, SetOf;
      var files := FilesOf(rows);
      var existing := DirsOf(rows);
      var needed := CollectNeeded(files);
      var missing := needed - existing;
      var conflicts := missing * files;
      var creatable := missing - files;
      order := [];
      var created := 0;
      if apply {
        var sorted := SortByDepth(creatable);
        AllNew(rows, sorted);
        CreateDirRows(sorted);
        order := sorted;
        DirsFilled(old(rows));
        created := |DirsOf(rows) - existing|;
      }
      report := Report(|files|, |missing|, |conflicts|, created);
    }
  }

  lemma AllNew(rows: map<string, Row>, order: seq<string>)
    requires SetOf(order) == Creatable(rows)
    ensures forall uri :: uri in order ==> uri !in rows
  {
    hide Needed;
    forall uri | uri in order ensures uri !in rows {
      assert uri in SetOf(order);
      assert uri in rows ==> uri in FilesOf(rows) || uri in DirsOf(rows);
    }
  }

  lemma NeededWith(files: set<string>, file: string)
    ensures Needed(files + {file}) == Needed(files) + SetOf(Above(file))
  {
    hide Above;
  }

  /** The directories afterwards are those before and the ones asked for that no file has taken; the files and
      their rows are as before. */
  lemma DirsFilled(rows: map<string, Row>)
    ensures DirsOf(Filled(rows)) == DirsOf(rows) + (Needed(FilesOf(rows)) - FilesOf(rows))
    ensures DirsOf(Filled(rows)) - DirsOf(rows) == Creatable(rows)
    ensures FilesOf(Filled(rows)) == FilesOf(rows)
    ensures forall uri :: uri in rows ==> uri in Filled(rows) && Filled(rows)[uri] == rows[uri]
  {
    hide Needed;
    var filled := Filled(rows);
    forall uri | uri in rows ensures filled[uri] == rows[uri] {
      assert uri in FilesOf(rows) || uri in DirsOf(rows);
    }
    forall uri ensures uri in DirsOf(filled) <==> uri in DirsOf(rows) || uri in Creatable(rows) {
      assert uri in FilesOf(rows) || uri in DirsOf(rows) || uri !in rows;
    }
    forall uri ensures uri in FilesOf(filled) <==> uri in FilesOf(rows) {
      assert uri in FilesOf(rows) || uri in DirsOf(rows) || uri !in rows;
    }
  }

  /** Running again changes nothing and reports only the conflicts. */
  lemma SecondRunCreatesNothing(rows: map<string, Row>)
    ensures Creatable(Filled(rows)) == {} && Filled(Filled(rows)) == Filled(rows)
    ensures Missing(Filled(rows)) == Conflicts(rows)
  {
    DirsFilled(rows);
    hide Needed, DirRow;
    assert Creatable(Filled(rows)) == {};
    assert Missing(Filled(rows)) == Conflicts(rows);
  }

  /** Each row is inserted after the rows of all directories above it, unless those were there already. */
  lemma ParentsComeFirst(rows: map<string, Row>, order: seq<string>, k: nat, above: string)
    requires SetOf(order) == Creatable(rows) && ShallowFirst(order) && k < |order|
    requires above in Above(order[k])
    ensures above in rows || above in order[..k]
  {
    hide Above, Slashes;
    var dir := order[k];
    assert dir in SetOf(order);
    var file :| file in FilesOf(rows) && dir in Above(file);
    var i :| 0 <= i < |Above(file)| && Above(file)[i] == dir;
    AboveIsClosed(file, i);
    var j :| 0 <= j < i && Above(file)[j] == above;
    DepthAbove(file, i);
    DepthAbove(file, j);
    assert above in Above(file);
    assert above in Needed(FilesOf(rows));
    if above !in rows {
      assert above in SetOf(order);
      var m :| 0 <= m < |order| && order[m] == above;
      assert m < k;
    }
  }

  /** Afterwards every file and every directory row that was added hangs together with the root, except below a
      path that a file has taken. */
  lemma NothingHangsFree(rows: map<string, Row>, uri: string, above: string)
    requires uri in FilesOf(rows) || uri in Creatable(rows)
    requires above in Above(uri)
    ensures above in DirsOf(Filled(rows)) || above in Conflicts(rows)
  {
    hide Above;
    DirsFilled(rows);
    if uri in Creatable(rows) {
      var file :| file in FilesOf(rows) && uri in Above(file);
      var i :| 0 <= i < |Above(file)| && Above(file)[i] == uri;
      AboveIsClosed(file, i);
      assert above in Above(file)[..i];
      assert above in Above(file);
      assert above in Needed(FilesOf(rows));
    } else {
      assert above in Needed(FilesOf(rows));
    }
  }

  lemma {:induction false} LastPartIs(dir: string, name: string)
    requires (dir == "" || dir[|dir| - 1] == '/') && '/' !in name
    ensures LastPart(dir + name) == name
  {
    if name == "" {
      assert dir + name == dir;
    } else {
      var n := |name| - 1;
      assert (dir + name)[..|dir + name| - 1] == dir + name[..n] && name == name[..n] + [name[n]] && name[n] in name;
      LastPartIs(dir, name[..n]);
    }
  }

  /** The row of a directory has the name after the last slash of its path; without one it is called the root. */
  lemma RowMeaning(dir: string, name: string)
    requires (dir == "" || dir[|dir| - 1] == '/') && '/' !in name
    ensures DirRow(dir + name) == Row(if name == "" then "root" else name, true)
  {
    LastPartIs(dir, name);
    hide LastPart;
  }
}
