/**
 * `database_open_cursor`: compile the optional query, then open a cursor on
 * the store with the compiled query, or with no query at all (a full scan).
 * The query compiler and the cursor are outside this model; their answers
 * are inputs.
 */
module Cursor {
  import opened Wrappers
  import opened Dom

  /** What the query compiler reports for the text it is given: a query, or a set error string. */
  datatype Compile = CompileOk | CompileError

  /**
   * The query a cursor is opened with: none (every record) or the compiled
   * text, which is the C-string view of the caller's query (`strlen` stops at
   * the first NUL).
   */
  datatype CursorQuery = FullScan | Filter(text: string)

  /**
   * The return code of `database_open_cursor`, whether it called the query
   * compiler, and the query it opened the cursor with (`None` when it never
   * tried to open one).
   */
  datatype OpenOutcome = OpenOutcome(rc: int, compiled: bool, openedWith: Option<CursorQuery>)

  /**
   * `query` is the caller's query text (`None` for NULL), `compile` what the
   * compiler reports for it, `cursorRc` what opening the cursor returns.
   */
  function OpenCursor(query: Option<string>, compile: Compile, cursorRc: int): (r: OpenOutcome)
    ensures r.compiled <==> query.Some?
    ensures r.openedWith.Some? <==> (query.None? || compile == CompileOk)
    ensures query.None? ==> r.openedWith == Some(FullScan)
    ensures query.Some? && compile == CompileOk ==> r.openedWith == Some(Filter(CString(query.value)))
    ensures r.rc == 0 <==> r.openedWith.Some? && cursorRc == 0
    ensures r.rc == 0 || r.rc == -1
  {
    var compiled := query.Some?;
    if compiled && compile.CompileError? then
      OpenOutcome(-1, true, None)
    else
      var q := if compiled then Filter(CString(query.value)) else FullScan;
      OpenOutcome(if cursorRc != 0 then -1 else 0, compiled, Some(q))
  }

  /** An empty query text is not a full scan: it is handed to the compiler like any other. */
  lemma EmptyQueryIsCompiled(compile: Compile, cursorRc: int)
    ensures OpenCursor(Some(""), compile, cursorRc).compiled
    ensures compile == CompileError ==> OpenCursor(Some(""), compile, cursorRc).rc == -1
    ensures OpenCursor(Some(""), compile, cursorRc).openedWith != Some(FullScan)
  {
  }
}
