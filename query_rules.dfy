/**
 * The rules `query` applies once the transport has answered: the counters,
 * the OK/Error classification, the one-line summary written to the log,
 * the log entries, and the shaping of a JSON result by its `result_type`.
 * They are functions of the transport outcome and of the library routines
 * the client calls (`json_decode`, `var_dump`, `http_build_query`), which
 * are passed in as a `Library`.
 */
module QueryRules {
  import opened PhpString
  import opened PhpValue
  import opened ResultTypes
  import opened Normalizer
  import opened Encoder

  /** What the transport produced: nothing at all when `check_environment`
      reports a problem, otherwise the HTTP status and the response body
      (for a cURL failure, the status cURL reports and the error text). */
  datatype Transport = EnvFailed | Reply(code: int, body: string)

  /** The transport outcome of one call and the wall-clock time of its log entry. */
  datatype Exchange = Exchange(reply: Transport, timestamp: string)

  /** What the client hands to the transport. */
  datatype Request = Request(verb: string, path: string, body: string)

  /** The server and the clock, as seen by the client. */
  type Network = Request -> Exchange

  /** The PHP library routines the client relies on. `varDump` is what
      `var_dump` prints for a value. */
  datatype Library = Library(httpBuildQuery: QueryBuilder, jsonDecode: string -> Value, varDump: Value -> string)

  /** `log_entry`: time, verb, path, data, status and summary. */
  datatype LogEntry = LogEntry(timestamp: string, verb: string, path: string, data: string, httpCode: int, msg: string)

  /** What `query` hands back: a value, or the `TypeError` PHP throws when
      `count` or `array_column` meets something that is not an array. */
  datatype QueryResult = Returned(value: Value) | TypeErrorThrown

  // ---------------------------------------------------------------------
  // Counters

  /** The endpoint a path is counted under: its first `/`-separated segment. */
  function EndpointName(path: string): string
  {
    Explode(path, '/')[0]
  }

  /** The endpoint name is the part of the path before the first `/`. */
  lemma {:induction false} EndpointNameSplits(path: string)
    ensures var n := EndpointName(path);
      && '/' !in n && StartsWith(path, n)
      && (|n| == |path| || path[|n|] == '/')
    decreases |path|
  {
    if |path| > 0 && path[0] != '/' {
      EndpointNameSplits(path[1..]);
      var n := EndpointName(path[1..]);
      assert EndpointName(path) == [path[0]] + n;
      assert path == [path[0]] + path[1..];
      assert path[..|n| + 1] == [path[0]] + path[1..][..|n|];
    }
  }

  /** A path `name/rest` is counted under `name`. */
  lemma {:induction false} EndpointNameOf(name: string, rest: string)
    requires '/' !in name
    ensures EndpointName(name + "/" + rest) == name
    decreases |name|
  {
    var path := name + "/" + rest;
    if |name| > 0 {
      assert path[0] == name[0];
      assert path[1..] == name[1..] + "/" + rest;
      EndpointNameOf(name[1..], rest);
      assert name == [name[0]] + name[1..];
    } else {
      assert path == "/" + rest;
    }
  }

  /** One more occurrence of `k`; a key seen for the first time starts at 1. */
  function Bump<K>(m: map<K, nat>, k: K): (r: map<K, nat>)
    ensures r.Keys == m.Keys + {k}
    ensures r[k] == (if k in m then m[k] + 1 else 1)
    ensures forall j :: j in m && j != k ==> r[j] == m[j]
  {
    m[k := if k in m then m[k] + 1 else 1]
  }

  /** `$this->http_code` after the transport: 500 when the environment check failed. */
  function StatusOf(t: Transport): int
  {
    match t
    case EnvFailed => 500
    case Reply(code, _) => code
  }

  // ---------------------------------------------------------------------
  // Classification

  /** `dbg($v)`: the trimmed `var_dump` text with the API key masked. */
  function Dbg(lib: Library, apiKey: string, v: Value): string
  {
    HidePass(apiKey, Trim(lib.varDump(v)))
  }

  /** `$result_string` after classification: the body as sent on 200, the
      cleaned body on any other status, and the dump of the never-assigned
      (null) variable when the environment check failed. */
  function ResultString(lib: Library, apiKey: string, t: Transport): string
  {
    match t
    case EnvFailed => Dbg(lib, apiKey, Null)
    case Reply(code, body) => if code == 200 then body else CleanHtml(body)
  }

  /** `$this->message` for a status and a result string. */
  function StatusMessage(path: string, code: int, rs: string): string
  {
    if code == 200 then "OK" else "Error " + path + " " + rs
  }

  /** `$this->message` after a call. */
  function Message(lib: Library, apiKey: string, path: string, t: Transport): string
  {
    StatusMessage(path, StatusOf(t), ResultString(lib, apiKey, t))
  }

  /** The message is `OK` exactly on status 200; otherwise it is `Error`,
      the path, and then the whole result string. */
  lemma MessageClassifies(path: string, code: int, rs: string)
    ensures code == 200 <==> StatusMessage(path, code, rs) == "OK"
    ensures code != 200 ==> StartsWith(StatusMessage(path, code, rs), "Error " + path + " ")
    ensures code != 200 ==> StatusMessage(path, code, rs)[|path| + 7..] == rs
  {
    if code != 200 {
      var m := StatusMessage(path, code, rs);
      assert m[..2] == "Er";
      assert m == ("Error " + path + " ") + rs;
    }
  }

  /** `$result` before shaping: the decoded body for a `json` call that got
      200, the status for `http_code`, and the result string otherwise. */
  function RawResult(rt: ResultType, lib: Library, apiKey: string, t: Transport): Value
  {
    if rt.kind == "json" && StatusOf(t) == 200 then lib.jsonDecode(ResultString(lib, apiKey, t))
    else if rt.kind == "http_code" then Int(StatusOf(t))
    else Str(ResultString(lib, apiKey, t))
  }

  // ---------------------------------------------------------------------
  // The one-line summary

  /** How the value under the result key is described. */
  function FieldSummary(lib: Library, apiKey: string, v: Value): string
  {
    match v
    case Arr(es) => "array(" + IntToDec(|es|) + ")"
    case Bool(b) => if b then "true" else "false"
    case Str(s) => "string(" + IntToDec(|s|) + ")"
    case _ => Dbg(lib, apiKey, v)
  }

  /** `$val` before the status rules. */
  function ValueSummary(rt: ResultType, lib: Library, apiKey: string, result: Value, rs: string): string
  {
    if rt.kind == "http_code" then rs
    else
      match result
      case Str(s) => s
      case Arr(es) =>
        if !EmptyString(rt.rkey) && Isset(result, rt.rkey) then
          "array[" + rt.rkey + "]=>" + FieldSummary(lib, apiKey, Index(result, rt.rkey))
        else "array(" + IntToDec(|es|) + ")"
      case _ => Dbg(lib, apiKey, result)
  }

  /** `str_replace(["\n", "\r"], [' ', ''], $s)`. */
  function OneLine(s: string): string
  {
    ReplaceAll(ReplaceAll(s, "\n", " "), "\r", "")
  }

  /** The summary logged for a call with status `code`: `OK` in front on 200,
      otherwise a leading `<code> ` is dropped; then made one line. */
  function LogSummary(code: int, val: string): string
  {
    var w :=
      if code == 200 then "OK" + (if Truthy(Str(val)) then " " + val else "")
      else if LooseEquals(Prefix(val, 4), IntToDec(code) + " ") then SubstrFrom(val, 4)
      else val;
    OneLine(w)
  }

  lemma OneLineNoBreaks(s: string)
    ensures '\n' !in OneLine(s) && '\r' !in OneLine(s)
  {
    var s1 := ReplaceAll(s, "\n", " ");
    ReplaceAllCharGone(s, '\n', " ");
    ReplaceAllCharKeeps(s1, '\r', "", '\n');
    ReplaceAllCharGone(s1, '\r', "");
  }

  /** The summary is always a single line. */
  lemma LogSummaryOneLine(code: int, val: string)
    ensures '\n' !in LogSummary(code, val) && '\r' !in LogSummary(code, val)
  {
    var w :=
      if code == 200 then "OK" + (if Truthy(Str(val)) then " " + val else "")
      else if LooseEquals(Prefix(val, 4), IntToDec(code) + " ") then SubstrFrom(val, 4)
      else val;
    OneLineNoBreaks(w);
  }

  /** On 200 the summary reads `OK`, then the value when there is one. */
  lemma LogSummaryOk(val: string)
    ensures StartsWith(LogSummary(200, val), "OK")
    ensures !Truthy(Str(val)) ==> LogSummary(200, val) == "OK"
  {
    var tail := if Truthy(Str(val)) then " " + val else "";
    var w := "OK" + tail;
    ReplaceAllCharPrefix("OK", tail, '\n', " ");
    var r1 := ReplaceAll(tail, "\n", " ");
    ReplaceAllCharPrefix("OK", r1, '\r', "");
    assert LogSummary(200, val) == "OK" + ReplaceAll(r1, "\r", "");
    assert ("OK" + ReplaceAll(r1, "\r", ""))[..2] == "OK";
  }

  /** A body that repeats a three-digit status in front of its text loses
      that prefix in the summary. */
  lemma LogSummaryStripsCode(code: int, rest: string)
    requires code != 200 && |IntToDec(code)| == 3
    ensures LogSummary(code, IntToDec(code) + " " + rest) == OneLine(rest)
  {
    var v := IntToDec(code) + " " + rest;
    assert Prefix(v, 4) == IntToDec(code) + " ";
    LooseEqualsReflexive(IntToDec(code) + " ");
    assert SubstrFrom(v, 4) == rest;
  }

  // ---------------------------------------------------------------------
  // Log entries

  /** The data column: `<data_count>:` in front when a count is given. */
  function DataField(dataCount: int, ds: string): string
  {
    (if dataCount != 0 then IntToDec(dataCount) + ":" else "") + ds
  }

  function EntryFields(e: LogEntry): seq<string>
  {
    [e.timestamp, e.verb, e.path, e.data, IntToDec(e.httpCode), e.msg]
  }

  /** `trim(implode(' ', $entry))`, with the empty initial entry giving `""`. */
  function LineOf(e: Option<LogEntry>): string
  {
    match e
    case None => ""
    case Some(entry) => Trim(Implode(EntryFields(entry), " "))
  }

  lemma ImplodeCons(p: string, rest: seq<string>, sep: string)
    requires |rest| > 0
    ensures Implode([p] + rest, sep) == p + (sep + Implode(rest, sep))
  {
    assert ([p] + rest)[1..] == rest;
  }

  lemma ConcatEnds(a: string, b: string)
    ensures |a| > 0 ==> (a + b)[0] == a[0]
    ensures |b| > 0 ==> (a + b)[|a + b| - 1] == b[|b| - 1]
  {
  }

  /** Six strings joined by single spaces. */
  lemma ImplodeSix(a: string, b: string, c: string, d: string, x: string, f: string)
    ensures Implode([a, b, c, d, x, f], " ") == a + (" " + (b + (" " + (c + (" " + (d + (" " + (x + (" " + f)))))))))
  {
    assert Implode([f], " ") == f;
    ImplodeCons(x, [f], " ");
    assert [x] + [f] == [x, f];
    ImplodeCons(d, [x, f], " ");
    assert [d] + [x, f] == [d, x, f];
    ImplodeCons(c, [d, x, f], " ");
    assert [c] + [d, x, f] == [c, d, x, f];
    ImplodeCons(b, [c, d, x, f], " ");
    assert [b] + [c, d, x, f] == [b, c, d, x, f];
    ImplodeCons(a, [b, c, d, x, f], " ");
    assert [a] + [b, c, d, x, f] == [a, b, c, d, x, f];
  }

  /** The six fields of an entry joined by single spaces. */
  lemma ImplodeEntry(e: LogEntry)
    ensures Implode(EntryFields(e), " ") ==
      e.timestamp + (" " + (e.verb + (" " + (e.path + (" " + (e.data + (" " + (IntToDec(e.httpCode) + (" " + e.msg)))))))))
  {
    ImplodeSix(e.timestamp, e.verb, e.path, e.data, IntToDec(e.httpCode), e.msg);
  }

  /** The log line of an entry is its fields, space-separated, none lost or
      reordered, when the time does not start and the summary does not end
      with whitespace. */
  lemma LineOfFields(e: LogEntry)
    requires |e.timestamp| > 0 && !IsTrimChar(e.timestamp[0])
    requires |e.msg| > 0 && !IsTrimChar(e.msg[|e.msg| - 1])
    ensures LineOf(Some(e)) ==
      e.timestamp + (" " + (e.verb + (" " + (e.path + (" " + (e.data + (" " + (IntToDec(e.httpCode) + (" " + e.msg)))))))))
  {
    ImplodeEntry(e);
    var l4 := e.data + (" " + (IntToDec(e.httpCode) + (" " + e.msg)));
    var l1 := e.verb + (" " + (e.path + (" " + l4)));
    var line := e.timestamp + (" " + l1);
    ConcatEnds(e.timestamp, " " + l1);
    ConcatEnds(IntToDec(e.httpCode), " " + e.msg);
    ConcatEnds(" ", IntToDec(e.httpCode) + (" " + e.msg));
    ConcatEnds(e.data, " " + (IntToDec(e.httpCode) + (" " + e.msg)));
    ConcatEnds(" ", l4);
    ConcatEnds(e.path, " " + l4);
    ConcatEnds(" ", e.path + (" " + l4));
    ConcatEnds(e.verb, " " + (e.path + (" " + l4)));
    ConcatEnds(" ", l1);
    ConcatEnds(" ", e.msg);
    TrimUntouched(line);
  }

  lemma IntToDecNoBreak(i: int)
    ensures '\n' !in IntToDec(i)
  {
    if i < 0 {
      var d := NatToDec(-i);
      assert IntToDec(i) == "-" + d;
      assert forall k :: 0 <= k < |d| ==> d[k] != '\n';
    } else {
      assert forall k :: 0 <= k < |IntToDec(i)| ==> IntToDec(i)[k] != '\n';
    }
  }

  /** None of the text fields of an entry holds a line break. */
  predicate SingleLineFields(e: LogEntry)
  {
    '\n' !in e.timestamp && '\n' !in e.verb && '\n' !in e.path && '\n' !in e.data && '\n' !in e.msg
  }

  /** An entry whose fields are single lines makes a single log line. */
  lemma LineOfOneLine(e: Option<LogEntry>)
    requires e.Some? ==> SingleLineFields(e.value)
    ensures '\n' !in LineOf(e)
  {
    if e.Some? {
      var x := e.value;
      ImplodeEntry(x);
      IntToDecNoBreak(x.httpCode);
      var joined := Implode(EntryFields(x), " ");
      assert '\n' !in joined;
      var i, j := TrimIsSlice(joined);
      assert forall k :: i <= k < j ==> joined[k] != '\n';
    }
  }

  /** What the rolling pair adds to the error log after a call: the previous
      and the current entry, one line each, when the call failed. */
  function ErrorLines(prev: Option<LogEntry>, cur: LogEntry): string
  {
    if cur.httpCode != 200 then LineOf(prev) + "\n" + LineOf(Some(cur)) + "\n" else ""
  }

  /** Two lines, each ended by a line break, split back into the two and
      the empty remainder. */
  lemma ExplodeTwoLines(a: string, b: string)
    requires '\n' !in a && '\n' !in b
    ensures Explode(a + "\n" + b + "\n", '\n') == [a, b, ""]
  {
    var parts := [a, b, ""];
    assert Implode([""], "\n") == "";
    assert [b, ""][1..] == [""];
    assert Implode([b, ""], "\n") == b + "\n" + "";
    assert parts[1..] == [b, ""];
    assert Implode(parts, "\n") == a + "\n" + (b + "\n" + "");
    assert a + "\n" + b + "\n" == Implode(parts, ['\n']);
    assert forall i :: 0 <= i < |parts| ==> '\n' !in parts[i];
    ExplodeImplode(parts, '\n');
  }

  /** A failed call adds exactly two lines, the previous call's and its own. */
  lemma ErrorLinesAreTwo(prev: Option<LogEntry>, cur: LogEntry)
    requires cur.httpCode != 200
    requires prev.Some? ==> SingleLineFields(prev.value)
    requires SingleLineFields(cur)
    ensures Explode(ErrorLines(prev, cur), '\n') == [LineOf(prev), LineOf(Some(cur)), ""]
  {
    LineOfOneLine(prev);
    LineOfOneLine(Some(cur));
    ExplodeTwoLines(LineOf(prev), LineOf(Some(cur)));
  }

  /** A successful call leaves the error log as it was. */
  lemma ErrorLinesOnSuccess(prev: Option<LogEntry>, cur: LogEntry)
    ensures cur.httpCode == 200 <==> ErrorLines(prev, cur) == ""
  {
  }

  // ---------------------------------------------------------------------
  // Shaping a JSON result

  /** The result does not have the shape the caller asked for. */
  predicate TypeMismatch(rt: ResultType, result: Value)
  {
    if EmptyString(rt.rkey) then !result.Arr?
    else !Isset(result, rt.rkey) || DebugType(Index(result, rt.rkey)) != rt.rtype
  }

  /** The value handed back instead of a mis-shaped result. */
  function Fallback(rt: ResultType): Value
  {
    if rt.rtype == "bool" then Bool(false)
    else if rt.column == "count" then Int(-1)
    else if EmptyString(rt.rkey) || rt.rtype == "array" then EmptyArray
    else Str("")
  }

  /** A well-shaped result: the value under the key (if any), then its
      element count or its projection on a column. */
  function Extract(rt: ResultType, result: Value): QueryResult
  {
    var sel := if !EmptyString(rt.rkey) then Index(result, rt.rkey) else result;
    if rt.column == "count" then
      if sel.Arr? then Returned(Int(|sel.entries|)) else TypeErrorThrown
    else if !EmptyString(rt.column) && rt.column != "array" then
      if sel.Arr? then Returned(ListOf(Column(sel.entries, rt.column))) else TypeErrorThrown
    else Returned(sel)
  }

  /** What `query` returns for the raw result. */
  function Shape(rt: ResultType, result: Value): QueryResult
  {
    if rt.kind != "json" then Returned(result)
    else if TypeMismatch(rt, result) then Returned(Fallback(rt))
    else Extract(rt, result)
  }

  /** The `$expected` part of the type-error log line. */
  function Expected(rt: ResultType): string
  {
    if EmptyString(rt.rkey) then "array" else "array[" + rt.rkey + "]=>" + rt.rtype
  }

  /** The message `log_error` records for a mis-shaped JSON result. */
  function MismatchMessage(rt: ResultType, dumped: string): string
  {
    "Error: " + Expected(rt) + " expected, but got " + dumped
  }

  /** What `log_error` adds to the error log for a `json` result of the
      wrong shape, and nothing for any other result. */
  function MismatchLines(lib: Library, apiKey: string, rt: ResultType, result: Value,
                         timestamp: string, verb: string, path: string, ds: string, code: int): string
  {
    if rt.kind == "json" && TypeMismatch(rt, result) then
      LineOf(Some(LogEntry(timestamp, verb, path, ds, code, MismatchMessage(rt, Dbg(lib, apiKey, result))))) + "\n"
    else ""
  }

  /** A `json` call that did not get 200 is never decoded: it sees the
      result string, which has the wrong shape, and returns the fallback. */
  lemma JsonErrorFallsBack(rt: ResultType, lib: Library, apiKey: string, t: Transport)
    requires rt.kind == "json" && StatusOf(t) != 200
    ensures RawResult(rt, lib, apiKey, t) == Str(ResultString(lib, apiKey, t))
    ensures TypeMismatch(rt, RawResult(rt, lib, apiKey, t))
    ensures Shape(rt, RawResult(rt, lib, apiKey, t)) == Returned(Fallback(rt))
  {
  }

  /** The fallback has the type the caller expects: `false` for a boolean,
      `-1` for a count, `[]` for an array, `''` for a string. */
  lemma FallbackHasExpectedType(rt: ResultType)
    ensures rt.rtype == "bool" ==> Fallback(rt) == Bool(false)
    ensures rt.rtype != "bool" && rt.column == "count" ==> Fallback(rt) == Int(-1)
    ensures !EmptyString(rt.rkey) && rt.column != "count" && (rt.rtype == "array" || rt.rtype == "bool" || rt.rtype == "string")
      ==> DebugType(Fallback(rt)) == rt.rtype
    ensures EmptyString(rt.rkey) && rt.rtype != "bool" && rt.column != "count" ==> Fallback(rt) == EmptyArray
    ensures !EmptyString(rt.rkey) && rt.rtype != "bool" && rt.column != "count" ==>
      Fallback(rt) == (if rt.rtype == "array" then EmptyArray else Str(""))
  {
  }

  /** With a key and no column (or column `array`, which neither counts nor
      projects), a well-shaped result is the key's value, which has the
      requested type. */
  lemma ShapeSelectsKey(rt: ResultType, result: Value)
    requires rt.kind == "json" && !EmptyString(rt.rkey)
    requires EmptyString(rt.column) || rt.column == "array"
    requires !TypeMismatch(rt, result)
    ensures Shape(rt, result) == Returned(Index(result, rt.rkey))
    ensures HasKey(result, rt.rkey) && DebugType(Shape(rt, result).value) == rt.rtype
  {
  }

  /** With column `count`, a well-shaped array result gives its element count. */
  lemma ShapeCounts(rt: ResultType, result: Value)
    requires rt.kind == "json" && rt.column == "count" && !TypeMismatch(rt, result)
    requires EmptyString(rt.rkey) || rt.rtype == "array"
    ensures var sel := if EmptyString(rt.rkey) then result else Index(result, rt.rkey);
      sel.Arr? && Shape(rt, result) == Returned(Int(|sel.entries|))
  {
  }

  /** A count on a key whose type is not `array` throws. */
  lemma ShapeCountOfScalarThrows(rt: ResultType, result: Value)
    requires rt.kind == "json" && rt.column == "count" && !TypeMismatch(rt, result)
    requires !EmptyString(rt.rkey) && rt.rtype != "array"
    ensures Shape(rt, result) == TypeErrorThrown
  {
  }

  /** With another column, a well-shaped array result is projected: a list
      of that column's values, at most one per element, in element order. */
  lemma ShapeProjects(rt: ResultType, result: Value)
    requires rt.kind == "json" && !TypeMismatch(rt, result)
    requires !EmptyString(rt.column) && rt.column != "array" && rt.column != "count"
    requires EmptyString(rt.rkey) || rt.rtype == "array"
    ensures var sel := if EmptyString(rt.rkey) then result else Index(result, rt.rkey);
      && sel.Arr?
      && Shape(rt, result) == Returned(ListOf(Column(sel.entries, rt.column)))
      && |Shape(rt, result).value.entries| <= |sel.entries|
      && (|Shape(rt, result).value.entries| == |sel.entries| <==>
           forall i :: 0 <= i < |sel.entries| ==> HasKey(sel.entries[i].1, rt.column))
  {
    var sel := if EmptyString(rt.rkey) then result else Index(result, rt.rkey);
    ColumnFull(sel.entries, rt.column);
  }

  /** `json:<key>:bool` always yields a boolean, whatever came back. */
  lemma BoolShapeIsBool(rt: ResultType, result: Value)
    requires rt.kind == "json" && !EmptyString(rt.rkey) && rt.rtype == "bool" && EmptyString(rt.column)
    ensures Shape(rt, result).Returned? && Shape(rt, result).value.Bool?
  {
    if !TypeMismatch(rt, result) {
      ShapeSelectsKey(rt, result);
    }
  }

  /** The descriptor `json:result:bool` of every yes/no endpoint, parsed. */
  const ResultBool := ResultType("json", "result", "bool", "")

  lemma ResultBoolDescriptor()
    ensures ParseResultType("json:result:bool") == ResultBool
  {
    ParseThreeParts("json", "result", "bool");
    assert "json" + ":" + "result" + ":" + "bool" == "json:result:bool";
  }

  /** The boolean a yes/no endpoint answers with: yes exactly when the call
      got 200 and the decoded body holds `true` under `result`. */
  function BoolReply(lib: Library, t: Transport): bool
  {
    t.Reply? && t.code == 200 && Index(lib.jsonDecode(t.body), "result") == Bool(true)
  }

  /** What `query` returns for `json:result:bool` is always a boolean, and
      it is the yes/no answer: a failed call, a body without the key or a
      non-boolean under it all read as no. */
  lemma BoolReplyMeaning(lib: Library, apiKey: string, t: Transport)
    ensures Shape(ResultBool, RawResult(ResultBool, lib, apiKey, t)) == Returned(Bool(BoolReply(lib, t)))
  {
    var rt := ResultBool;
    var raw := RawResult(rt, lib, apiKey, t);
    assert !EmptyString(rt.rkey);
    if StatusOf(t) == 200 {
      assert raw == lib.jsonDecode(t.body);
      if !TypeMismatch(rt, raw) {
        ShapeSelectsKey(rt, raw);
      } else {
        assert Shape(rt, raw) == Returned(Bool(false));
        assert Index(raw, "result") == Bool(true) ==> Isset(raw, "result") && DebugType(Index(raw, "result")) == "bool";
      }
    } else {
      JsonErrorFallsBack(rt, lib, apiKey, t);
    }
  }

  /** `json:<key>:array` (or plain `json`) without a column, or with column
      `array`, always yields an array. */
  lemma ArrayShapeIsArray(rt: ResultType, result: Value)
    requires rt.kind == "json" && rt.rtype != "bool"
    requires EmptyString(rt.column) || rt.column == "array"
    requires EmptyString(rt.rkey) || rt.rtype == "array"
    ensures Shape(rt, result).Returned? && Shape(rt, result).value.Arr?
  {
    if !TypeMismatch(rt, result) && !EmptyString(rt.rkey) {
      ShapeSelectsKey(rt, result);
    }
  }

  /** `http_code` calls return the status, whatever the body. */
  lemma HttpCodeShape(rt: ResultType, lib: Library, apiKey: string, t: Transport)
    requires rt.kind == "http_code"
    ensures Shape(rt, RawResult(rt, lib, apiKey, t)) == Returned(Int(StatusOf(t)))
  {
  }

  /** The parsed descriptor `http_code`. */
  const ResultHttpCode := ResultType("http_code", "", "", "")

  /** The descriptor `http_code` asks for the status. */
  lemma HttpCodeDescriptor()
    ensures ParseResultType("http_code") == ResultHttpCode
  {
    ParseBareKind("http_code");
  }
}
