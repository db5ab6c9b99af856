/** The `POST /execute_query` endpoint of api.py: only queries that start
    with `select` (ignoring case and surrounding whitespace) are passed, as
    written, to the external `dbf_query.exe`, whose JSON output is returned.
    Every failure, the guard's own 400 included, reaches the client as a
    500 whose detail starts "Error en execute_query: ". The external tool
    and the JSON parser are parameters. */
module QueryApi {
  import opened Base
  import opened Text

  /** An `HTTPException`: status code and detail. */
  datatype HttpError = HttpError(status: nat, detail: string)

  /** `str(exc)` of an `HTTPException`: `"<status>: <detail>"`. */
  function Show(e: HttpError): string {
    NatToString(e.status) + ": " + e.detail
  }

  const SelectOnly := "Solo se permiten consultas del tipo SELECT."
  const Tool := "dbf_query.exe"

  /** `data.query.strip().lower().startswith("select")`. */
  predicate Accepts(query: string) {
    StartsWith(Lower(Strip(query)), "select")
  }

  /** What `subprocess.run` reports. */
  datatype ToolRun = ToolRun(returncode: int, stdout: string, stderr: string)

  /** The response, and the command line the tool was started with, if it was. */
  datatype Response<J> = Response(argv: Option<seq<string>>, result: Result<J, HttpError>)

  /** The outer `except Exception` handler. */
  function Rewrap(e: HttpError): HttpError {
    HttpError(500, "Error en execute_query: " + Show(e))
  }

  function Execute<J>(query: string, dataSource: string,
                      tool: seq<string> -> ToolRun, parse: string -> Option<J>): (r: Response<J>)
    ensures r.result.Err? ==> r.result.error.status == 500
  {
    if !Accepts(query) then Response(None, Err(Rewrap(HttpError(400, SelectOnly))))
    else
      var argv := [Tool, dataSource, query];
      var run := tool(argv);
      if run.returncode != 0 then Response(Some(argv), Err(Rewrap(HttpError(500, "Error en dbf_query.exe: " + run.stderr))))
      else
        match parse(run.stdout)
        case Some(j) => Response(Some(argv), Ok(j))
        case None => Response(Some(argv), Err(Rewrap(HttpError(500, "Error al procesar los resultados JSON."))))
  }

  // ---------------------------------------------------------------- the guard

  /** Two strings equal up to ASCII letter case. */
  predicate SameIgnoringCase(a: string, b: string) {
    |a| == |b| && forall i :: 0 <= i < |a| ==> LowerChar(a[i]) == LowerChar(b[i])
  }

  lemma LowerSpec(s: string)
    ensures |Lower(s)| == |s| && forall i :: 0 <= i < |s| ==> Lower(s)[i] == LowerChar(s[i])
  {
  }

  /** The guard read character by character: at least six characters remain
      once the surrounding whitespace is removed, and the first six spell
      `select` in any mix of case. */
  lemma AcceptsSpec(query: string)
    ensures Accepts(query) <==>
      var s := Strip(query);
      |s| >= 6 && forall i :: 0 <= i < 6 ==> LowerChar(s[i]) == "select"[i]
  {
    var s := Strip(query);
    LowerSpec(s);
    if |s| >= 6 && forall i :: 0 <= i < 6 ==> LowerChar(s[i]) == "select"[i] {
      assert Lower(s)[..6] == "select";
    }
  }

  /** Characters equal up to case are both whitespace or both not. */
  lemma SpaceIgnoresCase(c: char, d: char)
    requires LowerChar(c) == LowerChar(d)
    ensures IsSpace(c) == IsSpace(d)
  {
  }

  lemma {:induction false} TrimLeftIgnoresCase(a: string, b: string)
    requires SameIgnoringCase(a, b)
    ensures SameIgnoringCase(TrimLeft(a), TrimLeft(b))
    decreases |a|
  {
    if |a| > 0 {
      SpaceIgnoresCase(a[0], b[0]);
      if IsSpace(a[0]) {
        TrimLeftIgnoresCase(a[1..], b[1..]);
      }
    }
  }

  lemma {:induction false} TrimRightIgnoresCase(a: string, b: string)
    requires SameIgnoringCase(a, b)
    ensures SameIgnoringCase(TrimRight(a), TrimRight(b))
    decreases |a|
  {
    if |a| > 0 {
      SpaceIgnoresCase(a[|a| - 1], b[|b| - 1]);
      if IsSpace(a[|a| - 1]) {
        TrimRightIgnoresCase(a[..|a| - 1], b[..|b| - 1]);
      }
    }
  }

  /** The guard cannot tell queries apart that differ only in letter case. */
  lemma CaseInsensitive(a: string, b: string)
    requires SameIgnoringCase(a, b)
    ensures Accepts(a) == Accepts(b)
  {
    TrimLeftIgnoresCase(a, b);
    TrimRightIgnoresCase(TrimLeft(a), TrimLeft(b));
    AcceptsSpec(a);
    AcceptsSpec(b);
  }

  lemma {:induction false} TrimLeftSpaces(ws: string, s: string)
    requires AllSpace(ws)
    ensures TrimLeft(ws + s) == TrimLeft(s)
    decreases |ws|
  {
    if ws != [] {
      assert (ws + s)[0] == ws[0] && (ws + s)[1..] == ws[1..] + s;
      TrimLeftSpaces(ws[1..], s);
    } else {
      assert ws + s == s;
    }
  }

  lemma {:induction false} TrimRightSpaces(s: string, ws: string)
    requires AllSpace(ws)
    ensures TrimRight(s + ws) == TrimRight(s)
    decreases |ws|
  {
    if ws != [] {
      assert (s + ws)[..|s + ws| - 1] == s + ws[..|ws| - 1];
      TrimRightSpaces(s, ws[..|ws| - 1]);
    } else {
      assert s + ws == s;
    }
  }

  /** Trailing text survives trimming on the left once a non-space is met. */
  lemma {:induction false} TrimLeftKeepsTail(s: string, t: string)
    requires !AllSpace(s)
    ensures TrimLeft(s + t) == TrimLeft(s) + t
    decreases |s|
  {
    if IsSpace(s[0]) {
      assert (s + t)[1..] == s[1..] + t;
      TrimLeftKeepsTail(s[1..], t);
    }
  }

  lemma {:induction false} AllSpaceTrims(s: string)
    requires AllSpace(s)
    ensures TrimLeft(s) == [] && TrimRight(s) == []
    decreases |s|
  {
    if s != [] {
      AllSpaceTrims(s[1..]);
      AllSpaceTrims(s[..|s| - 1]);
    }
  }

  /** Whitespace around a query does not change the guard's verdict. */
  lemma SurroundingSpace(ws: string, query: string, ws2: string)
    requires AllSpace(ws) && AllSpace(ws2)
    ensures Strip(ws + query + ws2) == Strip(query)
    ensures Accepts(ws + query + ws2) == Accepts(query)
  {
    assert ws + query + ws2 == ws + (query + ws2);
    TrimLeftSpaces(ws, query + ws2);
    if AllSpace(query) {
      assert AllSpace(query + ws2);
      AllSpaceTrims(query + ws2);
      AllSpaceTrims(query);
    } else {
      TrimLeftKeepsTail(query, ws2);
      TrimRightSpaces(TrimLeft(query), ws2);
    }
  }

  /** Example: surrounding whitespace and upper case are accepted. */
  lemma AcceptsPadded()
    ensures Accepts(" SELECT 1\n")
  {
    SurroundingSpace(" ", "SELECT 1", "\n");
    assert " " + "SELECT 1" + "\n" == " SELECT 1\n";
    AcceptsUpper();
  }

  lemma AcceptsUpper()
    ensures Accepts("SELECT 1")
  {
    StripUnpadded("SELECT 1");
    AcceptsSpec("SELECT 1");
  }

  /** The guard is a bare prefix test: whatever follows `select` (a longer
      word, a second statement) passes. */
  lemma {:induction false} AcceptsAnyTail(rest: string)
    ensures Accepts("select" + rest)
    decreases |rest|
  {
    var q := "select" + rest;
    if rest != [] && IsSpace(rest[|rest| - 1]) {
      var core := rest[..|rest| - 1];
      AcceptsAnyTail(core);
      SurroundingSpace("", "select" + core, [rest[|rest| - 1]]);
      assert "" + ("select" + core) + [rest[|rest| - 1]] == q;
    } else {
      assert q[0] == 's' && q[|q| - 1] == if rest == [] then 't' else rest[|rest| - 1];
      StripUnpadded(q);
      AcceptsSpec(q);
      assert forall i :: 0 <= i < 6 ==> q[i] == "select"[i];
    }
  }

  /** Example: only the start is checked, so a second statement passes. */
  lemma AcceptsSecondStatement()
    ensures Accepts("select 1; drop table t")
  {
    var q := "select 1; drop table t";
    assert q == "select" + q[6..];
    AcceptsAnyTail(q[6..]);
  }

  /** Example: a statement other than `select` is refused. */
  lemma RejectsUpdate()
    ensures !Accepts("update t")
  {
    StripUnpadded("update t");
    AcceptsSpec("update t");
  }

  /** Example: a query of blanks only is refused. */
  lemma RejectsBlank()
    ensures !Accepts("  ")
  {
    AllSpaceTrims("  ");
    AcceptsSpec("  ");
  }

  lemma StatusTexts()
    ensures NatToString(400) == "400" && NatToString(500) == "500"
  {
    assert NatToString(4) == "4" && NatToString(5) == "5";
    assert NatToString(40) == "40" && NatToString(50) == "50";
  }

  // -------------------------------------------------------------- the endpoint

  /** A rejected query never starts the tool, and the guard's 400 comes back
      re-wrapped as a 500. */
  lemma Rejected<J>(query: string, dataSource: string, tool: seq<string> -> ToolRun, parse: string -> Option<J>)
    requires !Accepts(query)
    ensures Execute(query, dataSource, tool, parse) ==
      Response(None, Err(HttpError(500, "Error en execute_query: 400: " + SelectOnly)))
  {
    StatusTexts();
    assert Show(HttpError(400, SelectOnly)) == "400: " + SelectOnly;
    assert "Error en execute_query: " + ("400: " + SelectOnly) == "Error en execute_query: 400: " + SelectOnly;
  }

  /** An accepted query is handed to the tool exactly as the client wrote
      it, unstripped and in its own case; a clean exit with parseable output
      is the response. */
  lemma Forwarded<J>(query: string, dataSource: string, tool: seq<string> -> ToolRun, parse: string -> Option<J>)
    requires Accepts(query)
    ensures var r := Execute(query, dataSource, tool, parse);
      r.argv == Some([Tool, dataSource, query]) &&
      (tool([Tool, dataSource, query]).returncode == 0 && parse(tool([Tool, dataSource, query]).stdout).Some? ==>
        r.result == Ok(parse(tool([Tool, dataSource, query]).stdout).value))
    ensures var r := Execute(query, dataSource, tool, parse);
      tool([Tool, dataSource, query]).returncode != 0 ==>
      r.result == Err(HttpError(500, "Error en execute_query: " + "500: " + "Error en dbf_query.exe: " + tool([Tool, dataSource, query]).stderr))
  {
    StatusTexts();
    var err := tool([Tool, dataSource, query]).stderr;
    var e := "Error en dbf_query.exe: " + err;
    assert Show(HttpError(500, e)) == "500: " + e;
    Assoc("Error en execute_query: ", "500: ", "Error en dbf_query.exe: ", err);
  }

  lemma Assoc(a: string, b: string, c: string, d: string)
    ensures a + (b + (c + d)) == a + b + c + d
  {
  }
}
