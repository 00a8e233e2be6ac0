/** The request handler (`router`): dispatch on method and path, decoding
    of the body into a list of query texts, and the batch loop. */
module Handler {
  import opened Json
  import opened Odbc
  import opened Query

  /** HTTP request methods. */
  datatype Method = Options | Get | Head | Post | Put | Delete | Trace | Connect | Patch | Extension(name: string)

  /** The request body after JSON parsing, or the parser's message. */
  datatype Body = Parsed(json: Value) | Unparsable(msg: string)

  /** A request: its method, its URL path segments and its body. */
  datatype Request = Request(verb: Method, path: seq<string>, body: Body)

  /** A response body: literal text, or a JSON value sent serialised. */
  datatype Content = Text(text: string) | JsonText(json: Value)

  datatype Response = Response(status: nat, content: Content)

  const StatusOk := 200
  const StatusNoContent := 204
  const StatusBadRequest := 400
  const StatusNotFound := 404
  const StatusMethodNotAllowed := 405
  const StatusInternalServerError := 500

  const NotAJsonArray := "Not a JSON array"
  const NotAnArrayOfStrings := "Not an array of strings"

  /** The request reaches body decoding: a POST to the root path. */
  predicate Accepted(req: Request) {
    req.verb == Post && req.path == [""]
  }

  /** Every element of a JSON array is a string. */
  predicate AllStrings(items: seq<Value>) {
    forall k :: 0 <= k < |items| ==> items[k].JString?
  }

  /** The batch loop's result for queries on conn: outcome i is that of the
      i-th statement, run with text i. */
  predicate IsBatchOf(conn: Connection, queries: seq<string>, results: seq<Value>) {
    |results| == |queries| &&
    forall i :: 0 <= i < |queries| ==> results[i] == QueryValue(conn.statement(i, queries[i]))
  }

  /** Decoding the parsed body into query texts: an array of strings gives
      the strings in order; anything else gives the message of the 500
      response. */
  method DecodeQueries(json: Value) returns (queries: Res<seq<string>>)
    ensures !json.JArray? ==> queries == Err(NotAJsonArray)
    ensures json.JArray? && !AllStrings(json.items) ==> queries == Err(NotAnArrayOfStrings)
    ensures json.JArray? && AllStrings(json.items) ==>
      queries.Ok? && |queries.value| == |json.items| &&
      forall k :: 0 <= k < |json.items| ==> queries.value[k] == json.items[k].str
  {
    if !json.JArray? {
      return Err(NotAJsonArray);
    }
    var qs := json.items;
    var list: seq<string> := [];
    for k := 0 to |qs|
      invariant |list| == k
      invariant forall j :: 0 <= j < k ==> qs[j].JString? && list[j] == qs[j].str
    {
      if !qs[k].JString? {
        return Err(NotAnArrayOfStrings);
      }
      list := list + [qs[k].str];
    }
    return Ok(list);
  }

  /** The batch loop: every query runs, in order, over the same connection;
      a failing query does not stop the ones after it. */
  method RunBatch(conn: Connection, queries: seq<string>) returns (results: seq<Value>)
    ensures IsBatchOf(conn, queries, results)
  {
    results := [];
    for i := 0 to |queries|
      invariant IsBatchOf(conn, queries[..i], results)
    {
      var outcome := DoQuery(conn, i, queries[i]);
      results := results + [outcome];
    }
    assert queries[..|queries|] == queries;
  }

  /** `router`. conn is the connection the handler would open; connected
      says whether it opened one. */
  method Router(req: Request, conn: Connection) returns (resp: Response, connected: bool)
    ensures req.verb == Options ==> resp == Response(StatusNoContent, Text("")) && !connected
    ensures req.verb != Options && req.path != [""] ==> resp == Response(StatusNotFound, Text("")) && !connected
    ensures req.verb != Options && req.path == [""] && req.verb != Post ==>
      resp == Response(StatusMethodNotAllowed, Text("")) && !connected
    ensures Accepted(req) && req.body.Unparsable? ==>
      resp == Response(StatusBadRequest, Text(req.body.msg)) && !connected
    ensures Accepted(req) && req.body.Parsed? && !req.body.json.JArray? ==>
      resp == Response(StatusInternalServerError, Text(NotAJsonArray)) && !connected
    ensures Accepted(req) && req.body.Parsed? && req.body.json.JArray? && !AllStrings(req.body.json.items) ==>
      resp == Response(StatusInternalServerError, Text(NotAnArrayOfStrings)) && !connected
    ensures Accepted(req) && req.body == Parsed(JArray([])) ==>
      resp == Response(StatusOk, Text("[]")) && !connected
    ensures Accepted(req) && req.body.Parsed? && req.body.json.JArray? && AllStrings(req.body.json.items) && req.body.json.items != [] ==>
      && connected && resp.status == StatusOk && resp.content.JsonText? && resp.content.json.JArray?
      && IsBatchOf(conn, seq(|req.body.json.items|, k requires 0 <= k < |req.body.json.items| => req.body.json.items[k].str), resp.content.json.items)
  {
    connected := false;
    if req.verb == Options {
      return Response(StatusNoContent, Text("")), connected;
    }
    if req.path != [""] {
      return Response(StatusNotFound, Text("")), connected;
    }
    if req.verb != Post {
      return Response(StatusMethodNotAllowed, Text("")), connected;
    }
    if req.body.Unparsable? {
      return Response(StatusBadRequest, Text(req.body.msg)), connected;
    }
    var decoded := DecodeQueries(req.body.json);
    if decoded.Err? {
      return Response(StatusInternalServerError, Text(decoded.msg)), connected;
    }
    var queries := decoded.value;
    if |queries| == 0 {
      return Response(StatusOk, Text("[]")), connected;
    }
    connected := true;
    var results := RunBatch(conn, queries);
    assert queries == seq(|req.body.json.items|, k requires 0 <= k < |req.body.json.items| => req.body.json.items[k].str);
    resp := Response(StatusOk, JsonText(JArray(results)));
  }
}
