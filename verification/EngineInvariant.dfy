/** What holds in every reachable state of the engine. Whatever statements clients write:
    ids in memory are distinct, fit an int and lie below the next id. For tables that
    have one spelling each: the loaded table's file still carries its header. */
module EngineInvariant {
  import opened Text
  import opened Csv
  import opened Statements
  import opened Storage
  import opened EngineModel
  import opened WriteThrough

  function TableOf(stmt: Statement): (text: string) {
    match stmt
    case Insert(s) => s.table
    case Select(s) => s.table
    case Delete(s) => s.table
  }

  // ---- every statement ---------------------------------------------------------------

  /** The invariant of the sequential engine. */
  predicate EngineOk(s: State) {
    RuntimeOk(s.runtime) && HeaderKept(s.runtime, s.files)
  }

  lemma LoadKeepsOk(s: State, name: string)
    requires EngineOk(s) && name != ""
    ensures EngineOk(State(Load(Activate(s.runtime, name), s.files, name).1, s.files))
  {
    LoadKeepsRuntimeOk(Activate(s.runtime, name), s.files, name);
  }

  lemma FirstInsertIs(r: Runtime, files: map<string, File>, stmt: InsertStatement)
    requires RuntimeOk(r) && !r.loaded && r.name == stmt.table && stmt.table !in files && FitsInsert(stmt)
      && CanStart(stmt)
    ensures AfterInsert([], stmt).Some?
    ensures var header := ["id"] + stmt.columns;
            InsertRow(r, files, stmt)
            == (true, State(Runtime(r.name, true, header, [NewRow(1, stmt)], 2),
                            files[r.name := AfterInsert([], stmt).value]))
  {
    FreshInsertAccepted(stmt);
    hide AfterInsert;
    assert [] + [NewRow(1, stmt)] == [NewRow(1, stmt)];
  }

  /** The new table in memory is a sound one, before its file is looked at. */
  lemma FirstRuntimeOk(name: string, stmt: InsertStatement)
    requires name != "" && FitsInsert(stmt) && CanStart(stmt)
    ensures RuntimeOk(Runtime(name, true, ["id"] + stmt.columns, [NewRow(1, stmt)], 2))
  {
    var header := ["id"] + stmt.columns;
    NewRowKeepsIds([], NewRow(1, stmt));
    assert [] + [NewRow(1, stmt)] == [NewRow(1, stmt)];
    assert SameName(header[0], "id");
    assert FirstNamed(header, "id") == Some(0);
  }

  /** A row of which storage is to choose the id goes to a table with the id in front. */
  lemma StoredMeansIdIsFirst(r: Runtime, files: map<string, File>, stmt: InsertStatement)
    requires EngineOk(State(r, files)) && r.loaded && FitsInsert(stmt) && SchemaMatches(r.columns, stmt)
    requires AfterInsert(if r.name in files then files[r.name] else [], stmt).Some?
    ensures FirstNamed(r.columns, "id") == Some(0)
  {
    hide AfterInsert, SchemaMatches, IdsOk, NextIdOf;
    if FirstNamed(r.columns, "id") != Some(0) {
      StoredMeansIdFirst(files[r.name], r.columns, stmt);
    }
  }

  lemma FirstInsertKeepsOk(r: Runtime, files: map<string, File>, stmt: InsertStatement)
    requires EngineOk(State(r, files)) && r.name != "" && FitsInsert(stmt) && !r.loaded
    ensures EngineOk(InsertRow(r, files, stmt).1)
  {
    if CanStart(stmt) {
      FirstRuntimeOk(r.name, stmt);
      assert [] + [NewRow(1, stmt)] == [NewRow(1, stmt)];
      RefusalKeepsOk(files[r.name := if r.name in files then files[r.name] else []], stmt.table);
      hide AfterInsert, RuntimeOk, HeaderKept, Load;
    }
  }

  /** The runtime that is loaded again after a refusal by storage. */
  lemma RefusalKeepsOk(files: map<string, File>, name: string)
    requires name != ""
    ensures EngineOk(State(Load(Unloaded(name), files, name).1, files))
  {
    LoadKeepsOk(State(Unloaded(name), files), name);
    assert Activate(Unloaded(name), name) == Unloaded(name);
  }

  lemma GrownRuntimeOk(r: Runtime, stmt: InsertStatement)
    requires RuntimeOk(r) && r.loaded && FirstNamed(r.columns, "id") == Some(0) && r.nextId <= INT_MAX
    requires FitsInsert(stmt) && SchemaMatches(r.columns, stmt)
    ensures RuntimeOk(Runtime(r.name, true, r.columns, r.rows + [NewRow(r.nextId, stmt)], r.nextId + 1))
  {
    hide IdsOk, NextIdOf, FirstNamed;
    NewRowKeepsIds(r.rows, NewRow(r.nextId, stmt));
  }

  lemma LaterInsertKeepsOk(r: Runtime, files: map<string, File>, stmt: InsertStatement)
    requires EngineOk(State(r, files)) && FitsInsert(stmt) && r.loaded
    ensures EngineOk(InsertRow(r, files, stmt).1)
  {
    hide AfterInsert, SchemaMatches, RuntimeOk, FirstNamed, Load;
    if SchemaMatches(r.columns, stmt) && r.nextId <= INT_MAX {
      var file := if r.name in files then files[r.name] else [];
      if AfterInsert(file, stmt).Some? {
        StoredMeansIdIsFirst(r, files, stmt);
        GrownRuntimeOk(r, stmt);
      } else {
        RefusalKeepsOk(files[r.name := file], stmt.table);
      }
    }
  }

  /** Every statement keeps the invariant, whatever its values, its columns and the
      spelling of its table. */
  lemma ExecuteKeepsOk(s: State, stmt: Statement)
    requires EngineOk(s) && Fits(stmt)
    ensures EngineOk(Execute(s, stmt).0)
  {
    match stmt
    case Insert(insert) =>
      LoadKeepsOk(s, insert.table);
      var (ok, r) := Load(Activate(s.runtime, insert.table), s.files, insert.table);
      if ok && r.loaded {
        LaterInsertKeepsOk(r, s.files, insert);
      } else if ok {
        FirstInsertKeepsOk(r, s.files, insert);
      }
      hide InsertRow;
    case Select(select) => LoadKeepsOk(s, select.table);
    case Delete(_) =>
  }

  // ---- tables of one spelling ----------------------------------------------------------

  /** No table is spelled in two ways. */
  predicate OneSpelling(names: set<string>) {
    "" !in names && forall a, b :: a in names && b in names && SameName(a, b) ==> a == b
  }

  /** The active table is one of `names`, and its file carries its header. */
  predicate HeaderOk(s: State, names: set<string>) {
    && RuntimeOk(s.runtime) && HeaderAgrees(s.runtime, s.files)
    && (s.runtime.name == "" || s.runtime.name in names)
  }

  /** A statement as the parser can produce it, about a table of one spelling. */
  predicate WellFormed(stmt: Statement, names: set<string>) {
    Fits(stmt) && TableOf(stmt) in names && (stmt.Insert? ==> NoBreaksInAny(stmt.insert.columns))
  }

  /** A table of one spelling is loaded under its own name. */
  lemma LoadKeepsName(s: State, names: set<string>, name: string)
    requires OneSpelling(names) && name in names && (s.runtime.name == "" || s.runtime.name in names)
    ensures var (ok, r) := Load(Activate(s.runtime, name), s.files, name);
            r.name == name && (ok && !r.loaded ==> name !in s.files)
  {
  }

  lemma LoadKeepsHeader(s: State, names: set<string>, name: string)
    requires HeaderOk(s, names) && OneSpelling(names) && name in names
    ensures var (ok, r) := Load(Activate(s.runtime, name), s.files, name);
            && HeaderOk(State(r, s.files), names) && r.name == name
            && (ok && !r.loaded ==> name !in s.files)
  {
    LoadKeepsRuntimeOk(Activate(s.runtime, name), s.files, name);
  }

  /** The header line of a new table reads back as its columns. */
  lemma FreshHeaderReads(stmt: InsertStatement)
    requires FitsInsert(stmt) && CanStart(stmt) && NoBreaksInAny(stmt.columns)
    ensures AfterInsert([], stmt).Some?
    ensures ReadHeader(AfterInsert([], stmt).value) == Some(["id"] + stmt.columns)
  {
    FreshInsertAccepted(stmt);
    var header := ["id"] + stmt.columns;
    var rest := EncodeRow(NewRow(1, stmt)) + ['\n'];
    assert EncodeRow(header) + ['\n'] + EncodeRow(NewRow(1, stmt)) + ['\n'] == EncodeRow(header) + ['\n'] + rest;
    assert NoBreaks("id") && NoBreaksInAny(header);
    RowNoBreaks(header);
    LinesOfOne(EncodeRow(header), rest);
    ParseEncodedRow(header);
    HeaderFits(stmt);
  }

  lemma FirstInsertKeepsHeader(r: Runtime, files: map<string, File>, names: set<string>, stmt: InsertStatement)
    requires HeaderOk(State(r, files), names) && r.name == stmt.table && stmt.table in names && stmt.table != ""
    requires FitsInsert(stmt) && NoBreaksInAny(stmt.columns) && !r.loaded && stmt.table !in files
    ensures HeaderOk(InsertRow(r, files, stmt).1, names)
  {
    if CanStart(stmt) {
      FirstInsertIs(r, files, stmt);
      FirstRuntimeOk(r.name, stmt);
      FreshHeaderReads(stmt);
      hide InsertRow, AfterInsert, RuntimeOk, ReadHeader;
    }
  }

  lemma LaterInsertKeepsHeader(r: Runtime, files: map<string, File>, names: set<string>, stmt: InsertStatement)
    requires HeaderOk(State(r, files), names) && r.name == stmt.table && stmt.table in names
    requires FitsInsert(stmt) && r.loaded
    ensures HeaderOk(InsertRow(r, files, stmt).1, names)
  {
    LaterInsertKeepsOk(r, files, stmt);
    if SchemaMatches(r.columns, stmt) && r.nextId <= INT_MAX {
      if AfterInsert(files[r.name], stmt).Some? {
        StoredKeepsHeader(files[r.name], r.columns, stmt);
      }
      hide AfterInsert, SchemaMatches, RuntimeOk;
    }
  }

  /** Where tables have one spelling each, every statement leaves the loaded table's
      header in its file, even one whose values break the file. */
  lemma ExecuteKeepsHeader(s: State, stmt: Statement, names: set<string>)
    requires HeaderOk(s, names) && OneSpelling(names) && WellFormed(stmt, names)
    ensures HeaderOk(Execute(s, stmt).0, names)
  {
    match stmt
    case Insert(insert) =>
      LoadKeepsHeader(s, names, insert.table);
      var (ok, r) := Load(Activate(s.runtime, insert.table), s.files, insert.table);
      if ok && r.loaded {
        LaterInsertKeepsHeader(r, s.files, names, insert);
      } else if ok {
        FirstInsertKeepsHeader(r, s.files, names, insert);
      }
      hide InsertRow;
    case Select(select) => LoadKeepsHeader(s, names, select.table);
    case Delete(_) =>
  }
}
