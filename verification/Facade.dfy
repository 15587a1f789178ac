/** The engine facade (src/db/db_engine_facade.c) on the heap: the tokenizer cache, the
    single table runtime and the table files together compute, for every text, the
    state transition and the answer of the model. */
module Facade {
  import opened Text
  import opened Statements
  import opened Storage
  import opened BPTreeIndex
  import opened EngineModel
  import opened EngineInvariant
  import opened TableRuntimes
  import opened Executor
  import opened Tokenizer
  import opened TokenizerCaches
  import opened Parser
  import opened Queries
  import opened SqlText
  import opened LockProtocol

  class DbEngine {
    const table: TableRuntime
    const disk: Disk
    const cache: TokenizerCache

    ghost predicate Separate()
      reads this, table, cache, table.index
    {
      && disk !in table.index.repr && cache !in table.index.repr
      && forall e :: e in cache.entries ==> e !in table.index.repr
    }

    ghost predicate Valid()
      reads this, table, table.index, table.index.repr, disk, cache, cache.entries
    {
      table.Valid() && cache.Valid() && Separate() && EngineOk(Abs())
    }

    ghost function Abs(): (after: State)
      reads this, table, disk
    {
      State(table.Abs(), disk.files)
    }

    /** `db_engine_init` over existing table files: no table is loaded. */
    constructor (files: map<string, File>)
      ensures fresh(table) && fresh(disk) && fresh(cache) && Valid() && Abs() == State(Unloaded(""), files)
      ensures fresh(table.index) && fresh(table.index.repr) && cache.entries == []
    {
      hide BPTree.Valid, TableRuntime.Valid, TokenizerCache.Valid, IdsOk;
      table := new TableRuntime();
      disk := new Disk(files);
      cache := new TokenizerCache();
    }

    /** `db_engine_parse_statement`, which runs before any lock is taken. */
    method ParseStatement(sql: string) returns (stmt: Option<Statement>)
      requires Valid()
      modifies cache, cache.entries
      ensures Valid() && Abs() == old(Abs()) && forall e :: e in cache.entries ==>
        e in old(cache.entries) || fresh(e)
      ensures stmt == if QueryOf(sql).Parsed? then Some(QueryOf(sql).stmt) else None
    {
      hide BPTree.Valid, TableRuntime.Valid, EngineOk, Trimmed, Tokenize, ParseTokens, Used, TokenizerCache.Valid;
      TrimmedIsTrimmed(sql);
      var working := Trimmed(sql);
      if working == "" {
        return None;
      }
      var tokens := cache.TokenizeCached(working);
      if tokens.None? {
        return None;
      }
      stmt := Parse(tokens.value);
    }

    /** The lock mode `execute_query_with_lock` asks for first. */
    method ChooseInitialLockMode(sql: string) returns (mode: Mode)
      requires Valid()
      modifies cache, cache.entries
      ensures Valid() && Abs() == old(Abs())
      ensures mode == InitialMode(QueryOf(sql))
    {
      hide Valid, QueryOf;
      var stmt := ParseStatement(sql);
      mode := if stmt.Some? && stmt.value.Select? then ReadMode else WriteMode;
    }

    /** `db_execute_sql`: the engine on the heap performs the query that the text stands
        for. */
    method ExecuteSql(sql: string) returns (result: DbResult)
      requires Valid()
      modifies table, table.index, table.index.repr, disk, cache, cache.entries
      ensures Valid() && fresh(table.index.repr - old(table.index.repr))
      ensures forall e :: e in cache.entries ==> e in old(cache.entries) || fresh(e)
      ensures QueryFits(QueryOf(sql)) && (Abs(), result) == Perform(old(Abs()), QueryOf(sql))
    {
      hide BPTree.Valid, TableRuntime.Valid, Trimmed, Tokenize, ParseTokens, Used, TokenizerCache.Valid, Execute, Fits;
      TrimmedIsTrimmed(sql);
      QueriesAreWellFormed(sql);
      PerformKeepsOk(Abs(), QueryOf(sql));
      var working := Trimmed(sql);
      if working == "" {
        return Failure("SQL statement is empty.");
      }
      var tokens := cache.TokenizeCached(working);
      if tokens.None? {
        return Failure("Failed to tokenize SQL statement.");
      }
      var stmt := Parse(tokens.value);
      if stmt.None? {
        return Failure("Failed to parse SQL statement.");
      }
      result := ExecuteStatement(table, disk, stmt.value);
    }
  }
}
