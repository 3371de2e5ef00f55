/**
 * The client object: the bookkeeping `query` keeps across calls (counters,
 * status, message, the rolling pair of log entries and the error log) and
 * the preloaded sets that let the existence checks answer without a call.
 *
 * Every call goes through a `Network`, which stands for cURL, the server
 * and the clock; the PHP library routines are the client's `lib`.
 */
module ApiClient {
  import opened PhpString
  import opened PhpValue
  import opened ResultTypes
  import opened Normalizer
  import opened Encoder
  import opened QueryRules
  import opened Catalog
  import opened Caches

  /** The part of the client that `query` updates on every call. */
  datatype QueryState = QueryState(
    apiCalls: map<string, nat>, httpCodes: map<int, nat>, httpCode: int, error: bool, message: string,
    callPrev: Option<LogEntry>, callCur: Option<LogEntry>, errorLog: string)

  class Client {
    const apiKey: string
    const lib: Library

    var error: bool
    var httpCode: int
    var message: string
    var apiCalls: map<string, nat>
    var httpCodes: map<int, nat>
    var callPrev: Option<LogEntry>
    var callCur: Option<LogEntry>
    var errorLog: string

    var userIds: seq<int>
    var userIdsActive: seq<int>
    var userIdsInactive: seq<int>
    var groupUsers: map<string, seq<Value>>
    var courseIds: seq<Value>
    var subscriptions: map<string, seq<Value>>
    var groups: seq<(string, string)>
    var groupTeacher: string

    constructor (apiKey: string, lib: Library)
      ensures this.apiKey == apiKey && this.lib == lib
      ensures !error && httpCode == 0 && message == ""
      ensures apiCalls == map[] && httpCodes == map[]
      ensures callPrev.None? && callCur.None? && errorLog == ""
      ensures userIds == [] && userIdsActive == [] && userIdsInactive == []
      ensures groupUsers == map[] && courseIds == [] && subscriptions == map[]
      ensures groups == [] && groupTeacher == "TCH"
    {
      this.apiKey := apiKey;
      this.lib := lib;
      error := false;
      httpCode := 0;
      message := "";
      apiCalls := map[];
      httpCodes := map[];
      callPrev := None;
      callCur := None;
      errorLog := "";
      userIds := [];
      userIdsActive := [];
      userIdsInactive := [];
      groupUsers := map[];
      courseIds := [];
      subscriptions := map[];
      groups := [];
      groupTeacher := "TCH";
    }

    // -------------------------------------------------------------------
    // What one call sees and produces

    /** The exchange of a call: the request carries the encoded data. */
    function Outcome(verb: string, path: string, data: seq<(string, Value)>, net: Network): Exchange
    {
      net(Request(verb, path, DataStringOf(data, lib.httpBuildQuery)))
    }

    /** The value `query` returns for a call. */
    function Answer(verb: string, path: string, resultType: string, data: seq<(string, Value)>, net: Network): QueryResult
    {
      var rt := ParseResultType(resultType);
      Shape(rt, RawResult(rt, lib, apiKey, Outcome(verb, path, data, net).reply))
    }

    /** The fields `query` updates, as one value. */
    function State(): QueryState
      reads this`apiCalls, this`httpCodes, this`httpCode, this`error, this`message
      reads this`callPrev, this`callCur, this`errorLog
    {
      QueryState(apiCalls, httpCodes, httpCode, error, message, callPrev, callCur, errorLog)
    }

    /** The state after one `query` call made in state `s`: both counters
        bumped, status, flag and message from the reply, the log pair rolled
        on, and the error log grown by the pair on failure and by the
        type-error line of a mis-shaped JSON result. */
    function AfterQuery(s: QueryState, verb: string, path: string, rt: ResultType, data: seq<(string, Value)>, dataCount: int, net: Network): QueryState
    {
      var x := Outcome(verb, path, data, net);
      var code := StatusOf(x.reply);
      var e := Entry(verb, path, rt, data, dataCount, net);
      QueryState(Bump(s.apiCalls, EndpointName(path)), Bump(s.httpCodes, code), code, code != 200,
        Message(lib, apiKey, path, x.reply), s.callCur, Some(e),
        s.errorLog + ErrorLines(s.callCur, e) + MismatchLine(verb, path, rt, data, net))
    }

    /** The state after the `GET` of a yes/no endpoint made in state `s`. */
    function AfterAsk(s: QueryState, path: string, net: Network): QueryState
    {
      AfterQuery(s, "GET", path, ResultBool, [], 0, net)
    }

    /** The log entry of a call. */
    function Entry(verb: string, path: string, rt: ResultType, data: seq<(string, Value)>, dataCount: int, net: Network): LogEntry
    {
      var x := Outcome(verb, path, data, net);
      var rs := ResultString(lib, apiKey, x.reply);
      var raw := RawResult(rt, lib, apiKey, x.reply);
      LogEntry(x.timestamp, verb, path, DataField(dataCount, DataStringOf(data, lib.httpBuildQuery)),
        StatusOf(x.reply), LogSummary(StatusOf(x.reply), ValueSummary(rt, lib, apiKey, raw, rs)))
    }

    /** The `log_error` line of a `json` call whose result has the wrong shape. */
    function MismatchLine(verb: string, path: string, rt: ResultType, data: seq<(string, Value)>, net: Network): string
    {
      var x := Outcome(verb, path, data, net);
      var raw := RawResult(rt, lib, apiKey, x.reply);
      MismatchLines(lib, apiKey, rt, raw, x.timestamp, verb, path, DataStringOf(data, lib.httpBuildQuery), StatusOf(x.reply))
    }

    /** Outside `json` calls the error log grows by the rolling pair alone:
        nothing on 200, the previous and the current entry's lines otherwise. */
    lemma ErrorLogOutsideJson(s: QueryState, verb: string, path: string, rt: ResultType, data: seq<(string, Value)>, dataCount: int, net: Network)
      requires rt.kind != "json"
      ensures var e := Entry(verb, path, rt, data, dataCount, net);
        AfterQuery(s, verb, path, rt, data, dataCount, net).errorLog
          == s.errorLog + (if e.httpCode == 200 then "" else LineOf(s.callCur) + "\n" + LineOf(Some(e)) + "\n")
    {
    }

    /** A failed `json` call writes a third line after the pair: the
        type-error line of `log_error`, which dumps the undecoded result
        string and carries the time, verb, path, data and status of the call. */
    lemma ErrorLogFailedJson(s: QueryState, verb: string, path: string, rt: ResultType, data: seq<(string, Value)>, dataCount: int, net: Network)
      requires rt.kind == "json" && StatusOf(Outcome(verb, path, data, net).reply) != 200
      ensures AfterQuery(s, verb, path, rt, data, dataCount, net).errorLog
        == s.errorLog + (LineOf(s.callCur) + "\n" + LineOf(Some(Entry(verb, path, rt, data, dataCount, net))) + "\n")
           + MismatchLine(verb, path, rt, data, net)
      ensures MismatchLine(verb, path, rt, data, net)
        == LineOf(Some(LogEntry(Outcome(verb, path, data, net).timestamp, verb, path, DataStringOf(data, lib.httpBuildQuery),
             StatusOf(Outcome(verb, path, data, net).reply),
             MismatchMessage(rt, Dbg(lib, apiKey, Str(ResultString(lib, apiKey, Outcome(verb, path, data, net).reply))))))) + "\n"
    {
      var x := Outcome(verb, path, data, net);
      JsonErrorFallsBack(rt, lib, apiKey, x.reply);
      var e := Entry(verb, path, rt, data, dataCount, net);
      assert e.httpCode == StatusOf(x.reply) != 200;
      assert ErrorLines(s.callCur, e) == LineOf(s.callCur) + "\n" + LineOf(Some(e)) + "\n";
    }

    // -------------------------------------------------------------------
    // query and log_error

    /** `log_error`: one more line in the error log. */
    method LogError(verb: string, path: string, ds: string, code: int, msg: string, timestamp: string)
      modifies this`errorLog
      ensures errorLog == old(errorLog) + LineOf(Some(LogEntry(timestamp, verb, path, ds, code, msg))) + "\n"
    {
      var entry := LogEntry(timestamp, verb, path, ds, code, msg);
      errorLog := errorLog + LineOf(Some(entry)) + "\n";
    }

    /** The first counter of `query`: calls per endpoint name. */
    method CountCall(path: string)
      modifies this`apiCalls
      ensures apiCalls == Bump(old(apiCalls), EndpointName(path))
    {
      var name := EndpointName(path);
      if name !in apiCalls {
        apiCalls := apiCalls[name := 1];
      } else {
        apiCalls := apiCalls[name := apiCalls[name] + 1];
      }
    }

    /** The second counter of `query`: calls per status code. */
    method CountStatus()
      modifies this`httpCodes
      ensures httpCodes == Bump(old(httpCodes), httpCode)
    {
      if httpCode !in httpCodes {
        httpCodes := httpCodes[httpCode := 1];
      } else {
        httpCodes := httpCodes[httpCode := httpCodes[httpCode] + 1];
      }
    }

    /** Status, status counter, error flag and message after the transport;
        returns the result string as classified. */
    method RecordStatus(path: string, t: Transport) returns (rs: string)
      modifies this`httpCode, this`httpCodes, this`error, this`message
      ensures httpCode == StatusOf(t)
      ensures httpCodes == Bump(old(httpCodes), httpCode)
      ensures error <==> httpCode != 200
      ensures message == Message(lib, apiKey, path, t)
      ensures rs == ResultString(lib, apiKey, t)
    {
      var sent: Option<string> := None;
      match t {
        case EnvFailed =>
          httpCode := 500;
        case Reply(code, body) =>
          sent := Some(body);
          httpCode := code;
      }

      CountStatus();

      if httpCode == 200 {
        error := false;
        message := "OK";
        rs := sent.value;
      } else {
        if sent.Some? {
          rs := CleanHtml(sent.value);
        } else {
          rs := Dbg(lib, apiKey, Null);
        }
        error := true;
        message := "Error " + path + " " + rs;
      }
    }

    /** The rolling pair of entries, and both into the error log on failure. */
    method RecordEntry(entry: LogEntry)
      modifies this`callPrev, this`callCur, this`errorLog
      ensures callPrev == old(callCur) && callCur == Some(entry)
      ensures errorLog == old(errorLog) + ErrorLines(old(callCur), entry)
    {
      callPrev := callCur;
      callCur := Some(entry);
      errorLog := errorLog + ErrorLines(callPrev, entry);
    }

    /** `query`: one API call. The two counters rise by one, status, error
        flag and message follow the reply, the log pair rolls on, the error
        log gains the pair on a failed call (and the type-error line of a
        mis-shaped JSON result), and the result is shaped as requested.
        Nothing else in the client changes. */
    method Query(verb: string, path: string, resultType: string, data: seq<(string, Value)>, dataCount: int, net: Network)
      returns (r: QueryResult)
      modifies this`apiCalls, this`httpCodes, this`httpCode, this`error, this`message
      modifies this`callPrev, this`callCur, this`errorLog
      ensures apiCalls == Bump(old(apiCalls), EndpointName(path))
      ensures httpCode == StatusOf(Outcome(verb, path, data, net).reply)
      ensures httpCodes == Bump(old(httpCodes), httpCode)
      ensures error <==> httpCode != 200
      ensures message == Message(lib, apiKey, path, Outcome(verb, path, data, net).reply)
      ensures callPrev == old(callCur)
      ensures callCur == Some(Entry(verb, path, ParseResultType(resultType), data, dataCount, net))
      ensures errorLog == old(errorLog) + ErrorLines(old(callCur), callCur.value) + MismatchLine(verb, path, ParseResultType(resultType), data, net)
      ensures r == Answer(verb, path, resultType, data, net)
      ensures State() == AfterQuery(old(State()), verb, path, ParseResultType(resultType), data, dataCount, net)
    {
      var ds, x, rs := Send(verb, path, data, net);
      r := Conclude(verb, path, ParseResultType(resultType), ds, dataCount, x, rs);
    }

    /** The first half of `query`: the call is counted, the data encoded and
        sent, and the status, error flag and message recorded. */
    method Send(verb: string, path: string, data: seq<(string, Value)>, net: Network)
      returns (ds: string, x: Exchange, rs: string)
      modifies this`apiCalls, this`httpCodes, this`httpCode, this`error, this`message
      ensures ds == DataStringOf(data, lib.httpBuildQuery)
      ensures x == Outcome(verb, path, data, net)
      ensures rs == ResultString(lib, apiKey, x.reply)
      ensures apiCalls == Bump(old(apiCalls), EndpointName(path))
      ensures httpCode == StatusOf(x.reply)
      ensures httpCodes == Bump(old(httpCodes), httpCode)
      ensures error <==> httpCode != 200
      ensures message == Message(lib, apiKey, path, x.reply)
    {
      CountCall(path);
      ds := DataString(data, lib.httpBuildQuery);
      x := net(Request(verb, path, ds));
      rs := RecordStatus(path, x.reply);
    }

    /** The second half of `query`: the raw result is decoded, the entry
        logged, and the result type-checked and shaped. */
    method Conclude(verb: string, path: string, rt: ResultType, ds: string, dataCount: int, x: Exchange, rs: string)
      returns (r: QueryResult)
      requires httpCode == StatusOf(x.reply) && rs == ResultString(lib, apiKey, x.reply)
      modifies this`callPrev, this`callCur, this`errorLog
      ensures callPrev == old(callCur)
      ensures callCur == Some(LogEntry(x.timestamp, verb, path, DataField(dataCount, ds), StatusOf(x.reply),
        LogSummary(StatusOf(x.reply), ValueSummary(rt, lib, apiKey, RawResult(rt, lib, apiKey, x.reply), rs))))
      ensures errorLog == old(errorLog) + ErrorLines(old(callCur), callCur.value)
        + MismatchLines(lib, apiKey, rt, RawResult(rt, lib, apiKey, x.reply), x.timestamp, verb, path, ds, StatusOf(x.reply))
      ensures r == Shape(rt, RawResult(rt, lib, apiKey, x.reply))
    {
      var result := DecodeResult(rt, x.reply, rs);
      var val := ValueSummary(rt, lib, apiKey, result, rs);
      val := LogSummary(httpCode, val);
      RecordEntry(LogEntry(x.timestamp, verb, path, DataField(dataCount, ds), httpCode, val));
      r := ShapeResult(verb, path, ds, httpCode, x.timestamp, rt, result);
    }

    /** The raw result: decoded JSON after a 200, the status for
        `http_code`, and the result string otherwise. */
    method DecodeResult(rt: ResultType, t: Transport, rs: string) returns (result: Value)
      requires httpCode == StatusOf(t) && rs == ResultString(lib, apiKey, t)
      ensures result == RawResult(rt, lib, apiKey, t)
    {
      if rt.kind == "json" && httpCode == 200 {
        result := lib.jsonDecode(rs);
      } else if rt.kind == "http_code" {
        result := Int(httpCode);
      } else {
        result := Str(rs);
      }
    }

    /** The `log_error` call for a `json` result of the wrong shape. */
    method LogMismatch(verb: string, path: string, ds: string, code: int, timestamp: string, rt: ResultType, result: Value)
      modifies this`errorLog
      ensures errorLog == old(errorLog) + MismatchLines(lib, apiKey, rt, result, timestamp, verb, path, ds, code)
    {
      if rt.kind == "json" && TypeMismatch(rt, result) {
        LogError(verb, path, ds, code, MismatchMessage(rt, Dbg(lib, apiKey, result)), timestamp);
      }
    }

    /** The type check of a `json` result: a result of the wrong shape is
        logged and replaced by the fallback, a well-shaped one is extracted. */
    method ShapeResult(verb: string, path: string, ds: string, code: int, timestamp: string, rt: ResultType, result: Value)
      returns (r: QueryResult)
      modifies this`errorLog
      ensures r == Shape(rt, result)
      ensures errorLog == old(errorLog) + MismatchLines(lib, apiKey, rt, result, timestamp, verb, path, ds, code)
    {
      LogMismatch(verb, path, ds, code, timestamp, rt, result);
      if rt.kind == "json" {
        if TypeMismatch(rt, result) {
          r := Returned(Fallback(rt));
        } else {
          r := Extract(rt, result);
        }
      } else {
        r := Returned(result);
      }
    }

    // -------------------------------------------------------------------
    // Existence checks that use the preloaded sets when there are any

    /** The answer of a yes/no endpoint, asked with `GET`. */
    function YesNo(path: string, net: Network): bool
    {
      BoolReply(lib, net(Request("GET", path, "")).reply)
    }

    /** A `GET` of the yes/no endpoint `<name>/<rest>` through `query`, as
        the wrappers do it: the boolean comes back, and the call is counted
        under `name`. */
    method AskBool(name: string, rest: string, net: Network) returns (r: bool)
      requires '/' !in name
      modifies this`apiCalls, this`httpCodes, this`httpCode, this`error, this`message
      modifies this`callPrev, this`callCur, this`errorLog
      ensures r == YesNo(name + "/" + rest, net)
      ensures apiCalls == Bump(old(apiCalls), name)
      ensures State() == AfterAsk(old(State()), name + "/" + rest, net)
    {
      var path := name + "/" + rest;
      EndpointNameOf(name, rest);
      var q := Query("GET", path, "json:result:bool", [], 0, net);
      assert Outcome("GET", path, [], net) == net(Request("GET", path, ""));
      ResultBoolDescriptor();
      BoolReplyMeaning(lib, apiKey, Outcome("GET", path, [], net).reply);
      r := q.value.b;
    }

    /** The path `userExists` asks. */
    function UserPath(uid: int): string
    {
      "userExists" + "/" + IntToDec(uid)
    }

    /** The answer of `userExists($uid)`: membership in the preloaded IDs
        when there are any, the server's answer otherwise. */
    function KnownUser(uid: int, net: Network): bool
      reads this`userIds
    {
      if |userIds| > 0 then uid in userIds
      else YesNo(UserPath(uid), net)
    }

    /** `userExists($uid)`. */
    method UserExists(uid: int, net: Network) returns (r: bool)
      modifies this`apiCalls, this`httpCodes, this`httpCode, this`error, this`message
      modifies this`callPrev, this`callCur, this`errorLog
      ensures r == old(KnownUser(uid, net))
      ensures |userIds| > 0 ==> r == (uid in userIds) && unchanged(this)
      ensures |userIds| == 0 ==> apiCalls == Bump(old(apiCalls), "userExists")
      ensures |userIds| == 0 ==> State() == AfterAsk(old(State()), UserPath(uid), net)
    {
      if |userIds| > 0 {
        r := uid in userIds;
      } else {
        r := AskBool("userExists", IntToDec(uid), net);
      }
    }

    /** The path `groupUserExists` asks. */
    function GroupUserPath(groupID: string, uid: int): string
    {
      "groupUserExists" + "/" + (groupID + "/" + IntToDec(uid))
    }

    /** The answer of `groupUserExists($groupID, $uid)` with the preloaded
        group members `members`: from those when there are any (no for an
        unknown group), the server's answer otherwise. */
    function InGroup(members: map<string, seq<Value>>, groupID: string, uid: int, net: Network): bool
    {
      if |members| > 0 then groupID in members && InArrayInt(uid, members[groupID])
      else YesNo(GroupUserPath(groupID, uid), net)
    }

    /** `groupUserExists($groupID, $uid)`. */
    method GroupUserExists(groupID: string, uid: int, net: Network) returns (r: bool)
      modifies this`apiCalls, this`httpCodes, this`httpCode, this`error, this`message
      modifies this`callPrev, this`callCur, this`errorLog
      ensures r == InGroup(groupUsers, groupID, uid, net)
      ensures |groupUsers| > 0 ==> unchanged(this)
      ensures |groupUsers| == 0 ==> apiCalls == Bump(old(apiCalls), "groupUserExists")
      ensures |groupUsers| == 0 ==> State() == AfterAsk(old(State()), GroupUserPath(groupID, uid), net)
    {
      if |groupUsers| > 0 {
        r := groupID in groupUsers && InArrayInt(uid, groupUsers[groupID]);
      } else {
        r := AskBool("groupUserExists", groupID + "/" + IntToDec(uid), net);
      }
    }

    /** The path `isSubscribed` asks. */
    function SubscribedPath(uid: int, courseID: string): string
    {
      "isSubscribed" + "/" + (IntToDec(uid) + "/" + courseID)
    }

    /** The answer of `isSubscribed($uid, $courseID)`: from the preloaded
        subscriptions when there are any (no for an unknown course);
        otherwise no for a user `userExists` denies, and the server's answer
        for any other. */
    function Subscribed(uid: int, courseID: string, net: Network): bool
      reads this`subscriptions, this`userIds
    {
      if |subscriptions| > 0 then courseID in subscriptions && InArrayInt(uid, subscriptions[courseID])
      else KnownUser(uid, net) && YesNo(SubscribedPath(uid, courseID), net)
    }

    /** The state after `isSubscribed` asked the server, from state `s`
        with the preloaded user IDs `ids`: first `userExists` unless the IDs
        are preloaded, then the subscription itself for a known user. */
    function AfterSubscribed(s: QueryState, ids: seq<int>, uid: int, courseID: string, net: Network): QueryState
    {
      if |ids| > 0 then
        if uid in ids then AfterAsk(s, SubscribedPath(uid, courseID), net) else s
      else
        var s1 := AfterAsk(s, UserPath(uid), net);
        if YesNo(UserPath(uid), net) then AfterAsk(s1, SubscribedPath(uid, courseID), net) else s1
    }

    /** `isSubscribed($uid, $courseID)`. */
    method IsSubscribed(uid: int, courseID: string, net: Network) returns (r: bool)
      modifies this`apiCalls, this`httpCodes, this`httpCode, this`error, this`message
      modifies this`callPrev, this`callCur, this`errorLog
      ensures r == old(Subscribed(uid, courseID, net))
      ensures |subscriptions| > 0 ==> unchanged(this)
      ensures |subscriptions| == 0 ==> State() == AfterSubscribed(old(State()), userIds, uid, courseID, net)
    {
      if |subscriptions| > 0 {
        r := courseID in subscriptions && InArrayInt(uid, subscriptions[courseID]);
      } else {
        r := AskSubscribed(uid, courseID, net);
      }
    }

    /** The branch of `isSubscribed` without preloaded subscriptions:
        `userExists` first, then the server for a known user. */
    method AskSubscribed(uid: int, courseID: string, net: Network) returns (r: bool)
      modifies this`apiCalls, this`httpCodes, this`httpCode, this`error, this`message
      modifies this`callPrev, this`callCur, this`errorLog
      ensures r == (old(KnownUser(uid, net)) && YesNo(SubscribedPath(uid, courseID), net))
      ensures State() == AfterSubscribed(old(State()), userIds, uid, courseID, net)
    {
      ghost var s0 := State();
      var known := UserExists(uid, net);
      assert State() == if |userIds| > 0 then s0 else AfterAsk(s0, UserPath(uid), net);
      if known {
        r := AskBool("isSubscribed", IntToDec(uid) + "/" + courseID, net);
      } else {
        r := false;
      }
    }

    // -------------------------------------------------------------------
    // get_groups

    /** The groups of `gs` the user is a member of, in order, with the
        preloaded members `members`. */
    function MemberGroups(members: map<string, seq<Value>>, gs: seq<string>, uid: int, net: Network): seq<string>
      decreases |gs|
    {
      if |gs| == 0 then []
      else
        var rest := MemberGroups(members, gs[..|gs| - 1], uid, net);
        if InGroup(members, gs[|gs| - 1], uid, net) then rest + [gs[|gs| - 1]] else rest
    }

    /** A group is listed exactly when it is one of `gs` and holds the user. */
    lemma {:induction false} MemberGroupsMeaning(members: map<string, seq<Value>>, gs: seq<string>, uid: int, net: Network)
      ensures forall g :: g in MemberGroups(members, gs, uid, net) <==> g in gs && InGroup(members, g, uid, net)
      ensures |MemberGroups(members, gs, uid, net)| <= |gs|
      decreases |gs|
    {
      if |gs| > 0 {
        MemberGroupsMeaning(members, gs[..|gs| - 1], uid, net);
        assert gs == gs[..|gs| - 1] + [gs[|gs| - 1]];
      }
    }

    lemma MemberGroupsSnoc(members: map<string, seq<Value>>, gs: seq<string>, i: nat, uid: int, net: Network)
      requires i < |gs|
      ensures MemberGroups(members, gs[..i + 1], uid, net)
        == MemberGroups(members, gs[..i], uid, net) + (if InGroup(members, gs[i], uid, net) then [gs[i]] else [])
    {
      assert gs[..i + 1][..i] == gs[..i];
    }

    /** The state after asking the server about `uid` in each group of `gs`, in order, from state `s`. */
    function AfterGroupChecks(s: QueryState, gs: seq<string>, uid: int, net: Network): QueryState
      decreases |gs|
    {
      if |gs| == 0 then s
      else AfterAsk(AfterGroupChecks(s, gs[..|gs| - 1], uid, net), GroupUserPath(gs[|gs| - 1], uid), net)
    }

    lemma AfterGroupChecksSnoc(s: QueryState, gs: seq<string>, i: nat, uid: int, net: Network)
      requires i < |gs|
      ensures AfterGroupChecks(s, gs[..i + 1], uid, net)
        == AfterAsk(AfterGroupChecks(s, gs[..i], uid, net), GroupUserPath(gs[i], uid), net)
    {
      assert gs[..i + 1][..i] == gs[..i];
    }

    /** One turn of the `get_groups` loop: `groupUserExists` for the next
        group, which is kept when it holds the user. */
    method CheckNextGroup(all: seq<string>, i: nat, uid: int, net: Network, sofar: seq<string>, ghost start: QueryState)
      returns (result: seq<string>)
      requires i < |all|
      requires sofar == MemberGroups(groupUsers, all[..i], uid, net)
      requires |groupUsers| == 0 ==> State() == AfterGroupChecks(start, all[..i], uid, net)
      modifies this`apiCalls, this`httpCodes, this`httpCode, this`error, this`message
      modifies this`callPrev, this`callCur, this`errorLog
      ensures result == MemberGroups(groupUsers, all[..i + 1], uid, net)
      ensures |groupUsers| > 0 ==> unchanged(this)
      ensures |groupUsers| == 0 ==> State() == AfterGroupChecks(start, all[..i + 1], uid, net)
    {
      MemberGroupsSnoc(groupUsers, all, i, uid, net);
      AfterGroupChecksSnoc(start, all, i, uid, net);
      var member := GroupUserExists(all[i], uid, net);
      result := if member then sofar + [all[i]] else sofar;
    }

    /** `get_groups($uid)`: every group of `all_groups()` that holds the user. */
    method GetGroups(uid: int, net: Network) returns (result: seq<string>)
      modifies this`apiCalls, this`httpCodes, this`httpCode, this`error, this`message
      modifies this`callPrev, this`callCur, this`errorLog
      ensures result == MemberGroups(groupUsers, AllGroups(groups, groupTeacher), uid, net)
      ensures |groupUsers| > 0 ==> unchanged(this)
      ensures |groupUsers| == 0 ==> State() == AfterGroupChecks(old(State()), AllGroups(groups, groupTeacher), uid, net)
    {
      var all := AllGroups(groups, groupTeacher);
      ghost var start := State();
      result := [];
      var i := 0;
      while i < |all|
        invariant 0 <= i <= |all|
        invariant result == MemberGroups(groupUsers, all[..i], uid, net)
        invariant |groupUsers| > 0 ==> unchanged(this)
        invariant |groupUsers| == 0 ==> State() == AfterGroupChecks(start, all[..i], uid, net)
      {
        result := CheckNextGroup(all, i, uid, net, result, start);
        i := i + 1;
      }
      assert all[..|all|] == all;
    }

    // -------------------------------------------------------------------
    // Preloading

    /** `init_user_ids()` over the rows `getUsers()` returned: the non-zero
        IDs, and the same IDs split by the `active` flag. */
    method InitUserIds(users: seq<Value>)
      modifies this`userIds, this`userIdsActive, this`userIdsInactive
      ensures userIds == IdsWhere(users, None)
      ensures userIdsActive == IdsWhere(users, Some(true))
      ensures userIdsInactive == IdsWhere(users, Some(false))
    {
      userIds := [];
      userIdsActive := [];
      userIdsInactive := [];
      var i := 0;
      while i < |users|
        invariant 0 <= i <= |users|
        invariant userIds == IdsWhere(users[..i], None)
        invariant userIdsActive == IdsWhere(users[..i], Some(true))
        invariant userIdsInactive == IdsWhere(users[..i], Some(false))
      {
        assert users[..i + 1][..i] == users[..i];
        var uid := ToInt(Index(users[i], "id"));
        if uid != 0 {
          userIds := userIds + [uid];
          if Truthy(Index(users[i], "active")) {
            userIdsActive := userIdsActive + [uid];
          } else {
            userIdsInactive := userIdsInactive + [uid];
          }
        }
        i := i + 1;
      }
      assert users[..|users|] == users;
    }

    /** The inner loop of `init_course_ids`: the IDs of one template's
        courses that are open to the teacher group. */
    method AppendTeacherCourses(courses: seq<Value>, teacher: string)
      modifies this`courseIds
      ensures courseIds == old(courseIds) + TeacherCourses(courses, teacher)
    {
      var j := 0;
      while j < |courses|
        invariant 0 <= j <= |courses|
        invariant courseIds == old(courseIds) + TeacherCourses(courses[..j], teacher)
      {
        assert courses[..j + 1][..j] == courses[..j];
        if Truthy(Index(courses[j], "teachersAllowed")) && LooseEqualsString(Index(courses[j], "teacherGroup"), teacher) {
          courseIds := courseIds + [Index(courses[j], "id")];
        }
        j := j + 1;
      }
      assert courses[..|courses|] == courses;
    }

    /** `init_course_ids()` over the rows `getTemplates()` returned, with
        `coursesOf` standing for `getCourses`: the IDs of the courses open to
        the teacher group. A template without a string ID stops the walk with
        a `TypeError` (`typeError`), keeping the IDs found before it. */
    method InitCourseIds(templates: seq<Value>, coursesOf: string -> seq<Value>) returns (typeError: bool)
      modifies this`courseIds
      ensures (courseIds, typeError) == CollectCourses(templates, coursesOf, groupTeacher)
    {
      courseIds := [];
      typeError := false;
      var teacher := groupTeacher;
      ghost var stop := FirstBadTemplate(templates);
      var i := 0;
      while i < |templates|
        invariant 0 <= i <= stop
        invariant courseIds == CourseIdsOf(templates[..i], coursesOf, teacher)
      {
        var id := Index(templates[i], "id");
        if !id.Str? {
          typeError := true;
          return;
        }
        AppendTeacherCourses(coursesOf(id.s), teacher);
        CourseIdsOfSnoc(templates, i, coursesOf, teacher);
        i := i + 1;
      }
    }

    // -------------------------------------------------------------------
    // User calls with the field whitelist

    /** Drop the fields the call does not accept, then POST the row. */
    method SubmitUser(fn: string, uid: int, user: seq<(string, Value)>, net: Network) returns (code: int)
      requires '/' !in fn
      modifies this`apiCalls, this`httpCodes, this`httpCode, this`error, this`message
      modifies this`callPrev, this`callCur, this`errorLog
      ensures code == StatusOf(Outcome("POST", fn + "/" + IntToDec(uid), Whitelisted(user, UserFields(fn)), net).reply)
      ensures code == httpCode
      ensures apiCalls == Bump(old(apiCalls), fn)
      ensures State() == AfterQuery(old(State()), "POST", fn + "/" + IntToDec(uid), ResultHttpCode, Whitelisted(user, UserFields(fn)), 0, net)
    {
      var fields := UserFields(fn);
      var kept := FilterFields(user, fields);
      var path := fn + "/" + IntToDec(uid);
      var q := Query("POST", path, "http_code", kept, 0, net);
      HttpCodeDescriptor();
      HttpCodeShape(ResultHttpCode, lib, apiKey, Outcome("POST", path, kept, net).reply);
      EndpointNameOf(fn, IntToDec(uid));
      code := q.value.i;
    }

    /** `addUser($uid, $user)`. */
    method AddUser(uid: int, user: seq<(string, Value)>, net: Network) returns (code: int)
      modifies this`apiCalls, this`httpCodes, this`httpCode, this`error, this`message
      modifies this`callPrev, this`callCur, this`errorLog
      ensures code == StatusOf(Outcome("POST", "addUser" + "/" + IntToDec(uid), Whitelisted(user, UserFields("addUser")), net).reply)
      ensures code == httpCode
      ensures apiCalls == Bump(old(apiCalls), "addUser")
      ensures State() == AfterQuery(old(State()), "POST", "addUser" + "/" + IntToDec(uid), ResultHttpCode, Whitelisted(user, UserFields("addUser")), 0, net)
    {
      code := SubmitUser("addUser", uid, user, net);
    }

    /** `updateUser($uid, $user)`. */
    method UpdateUser(uid: int, user: seq<(string, Value)>, net: Network) returns (code: int)
      modifies this`apiCalls, this`httpCodes, this`httpCode, this`error, this`message
      modifies this`callPrev, this`callCur, this`errorLog
      ensures code == StatusOf(Outcome("POST", "updateUser" + "/" + IntToDec(uid), Whitelisted(user, UserFields("updateUser")), net).reply)
      ensures code == httpCode
      ensures apiCalls == Bump(old(apiCalls), "updateUser")
      ensures State() == AfterQuery(old(State()), "POST", "updateUser" + "/" + IntToDec(uid), ResultHttpCode, Whitelisted(user, UserFields("updateUser")), 0, net)
    {
      code := SubmitUser("updateUser", uid, user, net);
    }

    /** `addOrUpdateUser($uid, $user)`. */
    method AddOrUpdateUser(uid: int, user: seq<(string, Value)>, net: Network) returns (code: int)
      modifies this`apiCalls, this`httpCodes, this`httpCode, this`error, this`message
      modifies this`callPrev, this`callCur, this`errorLog
      ensures code == StatusOf(Outcome("POST", "addOrUpdateUser" + "/" + IntToDec(uid), Whitelisted(user, UserFields("addOrUpdateUser")), net).reply)
      ensures code == httpCode
      ensures apiCalls == Bump(old(apiCalls), "addOrUpdateUser")
      ensures State() == AfterQuery(old(State()), "POST", "addOrUpdateUser" + "/" + IntToDec(uid), ResultHttpCode, Whitelisted(user, UserFields("addOrUpdateUser")), 0, net)
    {
      code := SubmitUser("addOrUpdateUser", uid, user, net);
    }
  }
}
