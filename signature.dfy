/**
 * `GetMethodSignature` of the C# generator: which operations and responses it
 * accepts, the return type, the parameter declarations and their order, the
 * request body parameter and the signature text of the synchronous and the
 * asynchronous method; with the return-type wrapping, the method-name suffix
 * for responses with several media types and `GetFirstLine`.
 */
module Signatures {
  import opened Wrappers
  import opened Text
  import opened Schemas

  datatype OperationType = Get | Put | Post | Delete | Options | Head | Patch | Trace

  datatype Location = Query | Header | Path | Cookie

  datatype Parameter = Parameter(name: string, location: Location, required: bool, schema: Schema)

  /** The value of a request body's `x-name` extension: a string or anything else. */
  datatype XName = XString(text: string) | XOther

  /** `content` lists the body's media types with their schemas, in order. */
  datatype RequestBody = RequestBody(content: seq<(string, Schema)>, required: bool, xName: Option<XName>)

  datatype Operation = Operation(parameters: seq<Parameter>, requestBody: Option<RequestBody>)

  /** What `GetMethodSignature` returns and hands out: the signature text, the
      return type ("" for none), the declarations of the kept parameters in
      their original order, and the body parameter. */
  datatype Signature = Signature(text: string, returnType: string, parameters: seq<(string, Parameter)>, body: Option<string>)

  const OperationError: Error := "Only get, put, post or delete operations are supported."
  const ResponseError: Error := "Only response types '200' or '201' are supported."
  const BodyCountError: Error := "Only a single request body content is supported."
  const BodyMediaError: Error := "Only body content media types application/json or application/octet-stream are supported."
  const XNameError: Error := "The actual x-name value type is not supported."

  const CancellationParameter := "CancellationToken cancellationToken = default"

  predicate SupportedOperation(t: OperationType) {
    t == Get || t == Put || t == Post || t == Delete
  }

  /** Only path and query parameters make it into the signature. */
  predicate InUrl(p: Parameter) {
    p.location == Query || p.location == Path
  }

  function Kept(ps: seq<Parameter>): seq<Parameter> {
    if ps == [] then [] else (if InUrl(ps[0]) then [ps[0]] else []) + Kept(ps[1..])
  }

  /** The kept parameters are exactly the path and query parameters. */
  lemma {:induction false} KeptExactly(ps: seq<Parameter>)
    ensures forall p :: p in Kept(ps) <==> p in ps && InUrl(p)
    ensures |Kept(ps)| <= |ps|
  {
    if ps != [] {
      KeptExactly(ps[1..]);
      assert ps == [ps[0]] + ps[1..];
    }
  }

  /** A parameter's declaration: its nullable-adjusted type and name, and
      " = default" when it is optional. */
  function ParameterText(p: Parameter): (r: Result<string, Error>)
    ensures r.Ok? <==> GetType(p.schema, None).Ok?
    ensures r.Ok? && p.required ==> r.value == GetType(p.schema, None).value + " " + p.name
    ensures r.Ok? && !p.required ==> (EndsWith(r.value, " " + p.name + " = default")
                                      && StartsWith(r.value, GetType(p.schema, None).value)
                                      && StartsWith(r.value, ApplyRequired(GetType(p.schema, None).value, false) + " "))
  {
    var t :- GetType(p.schema, None);
    var head := ApplyRequired(t, p.required) + " ";
    PrefixOfAppend(head + p.name, if p.required then "" else " = default", |head|);
    PrefixOfAppend(head, p.name, |head|);
    assert head[..|head|] == head;
    Ok(ApplyRequired(t, p.required) + " " + p.name + (if p.required then "" else " = default"))
  }

  /** The declarations of the kept parameters, in order; the first parameter
      whose type fails fails the whole list. */
  function Declarations(kept: seq<Parameter>): (r: Result<seq<(string, Parameter)>, Error>)
    ensures r.Ok? ==> |r.value| == |kept|
                      && forall i :: 0 <= i < |kept| ==> ParameterText(kept[i]).Ok?
                                                          && r.value[i] == (ParameterText(kept[i]).value, kept[i])
    ensures r.Err? ==> exists i :: 0 <= i < |kept| && ParameterText(kept[i]) == Err(r.error)
                                   && forall j :: 0 <= j < i ==> ParameterText(kept[j]).Ok?
  {
    if kept == [] then Ok([])
    else
      var d :- ParameterText(kept[0]);
      var rest :- Declarations(kept[1..]);
      Ok([(d, kept[0])] + rest)
  }

  /** The body parameter's declaration, or the error for a body the generator
      does not support. */
  function BodyParameter(body: RequestBody, methodName: string): (r: Result<string, Error>)
    ensures |body.content| != 1 ==> r == Err(BodyCountError)
    ensures |body.content| == 1 && body.content[0].0 !in {"application/json", "application/octet-stream"} ==> r == Err(BodyMediaError)
    ensures r.Ok? && body.xName.None? ==> r.value == (if body.required then "JsonElement body" else "JsonElement? body")
    ensures (|body.content| == 1 && body.content[0].0 in {"application/json", "application/octet-stream"}
             && body.xName.Some? && !body.xName.value.XString?) ==> r == Err(XNameError)
    ensures (|body.content| == 1 && body.content[0].0 in {"application/json", "application/octet-stream"}
             && body.xName.Some? && body.xName.value.XString?
             && MediaType(body.content[0].0, body.content[0].1, Some(methodName + "Request"), false).Err?)
            ==> r == Err(MediaType(body.content[0].0, body.content[0].1, Some(methodName + "Request"), false).error)
    ensures r.Ok? && body.xName.Some? ==>
              && body.xName.value.XString?
              && MediaType(body.content[0].0, body.content[0].1, Some(methodName + "Request"), false).Ok?
              && StartsWith(r.value, ApplyRequired(MediaType(body.content[0].0, body.content[0].1, Some(methodName + "Request"), false).value, body.required))
              && EndsWith(r.value, " " + body.xName.value.text)
  {
    if |body.content| != 1 then Err(BodyCountError)
    else
      var (key, schema) := body.content[0];
      if !(key == "application/json" || key == "application/octet-stream") then Err(BodyMediaError)
      else if body.xName.Some? then
        if !body.xName.value.XString? then Err(XNameError)
        else
          var t :- MediaType(key, schema, Some(methodName + "Request"), false);
          var name := body.xName.value.text;
          Associative(ApplyRequired(t, body.required), " ", name);
          EndsWithAppended(ApplyRequired(t, body.required), " " + name);
          PrefixOfAppend(ApplyRequired(t, body.required), " " + name, |ApplyRequired(t, body.required)|);
          Ok(ApplyRequired(t, body.required) + " " + name)
      else Ok((if body.required then "JsonElement" else "JsonElement?") + " body")
  }

  /** An entry of the parameter list with the key it is ordered by. */
  datatype Entry = Entry(text: string, first: bool)

  /** Puts `e` in front of the first entry that does not come first; `e`
      itself goes to the front when it comes first. */
  function InsertEntry(e: Entry, sorted: seq<Entry>): seq<Entry> {
    if e.first || sorted == [] || !sorted[0].first then [e] + sorted
    else [sorted[0]] + InsertEntry(e, sorted[1..])
  }

  /** LINQ's `OrderByDescending` on a boolean key, as an insertion sort. */
  function OrderByDescending(xs: seq<Entry>): seq<Entry> {
    if xs == [] then [] else InsertEntry(xs[0], OrderByDescending(xs[1..]))
  }

  function Firsts(xs: seq<Entry>): seq<Entry> {
    if xs == [] then [] else (if xs[0].first then [xs[0]] else []) + Firsts(xs[1..])
  }

  function Others(xs: seq<Entry>): seq<Entry> {
    if xs == [] then [] else (if xs[0].first then [] else [xs[0]]) + Others(xs[1..])
  }

  lemma {:induction false} FirstsAreFirst(xs: seq<Entry>)
    ensures forall i :: 0 <= i < |Firsts(xs)| ==> Firsts(xs)[i].first
    ensures forall i :: 0 <= i < |Others(xs)| ==> !Others(xs)[i].first
  {
    if xs != [] {
      FirstsAreFirst(xs[1..]);
    }
  }

  lemma {:induction false} InsertBehindFirsts(e: Entry, a: seq<Entry>, b: seq<Entry>)
    requires !e.first
    requires forall i :: 0 <= i < |a| ==> a[i].first
    requires b != [] ==> !b[0].first
    ensures InsertEntry(e, a + b) == a + [e] + b
    decreases |a|
  {
    if a != [] {
      InsertBehindFirsts(e, a[1..], b);
      assert (a + b)[1..] == a[1..] + b;
    }
  }

  /** The sort is stable: the entries that come first, in their original
      order, followed by the others, in their original order. */
  lemma {:induction false} OrderIsStablePartition(xs: seq<Entry>)
    ensures OrderByDescending(xs) == Firsts(xs) + Others(xs)
  {
    if xs != [] {
      OrderIsStablePartition(xs[1..]);
      FirstsAreFirst(xs[1..]);
      var a, b := Firsts(xs[1..]), Others(xs[1..]);
      if xs[0].first {
        Associative([xs[0]], a, b);
      } else {
        InsertBehindFirsts(xs[0], a, b);
        assert [] + a == a;
        assert [xs[0]] + b == Others(xs);
      }
    }
  }

  /** Splitting by the key loses and adds nothing. */
  lemma {:induction false} PartitionPermutes(xs: seq<Entry>)
    ensures multiset(Firsts(xs) + Others(xs)) == multiset(xs)
  {
    if xs != [] {
      PartitionPermutes(xs[1..]);
      assert xs == [xs[0]] + xs[1..];
    }
  }

  /** The parameter list is a reordering of its entries in which no entry that
      comes first follows one that does not, and each group keeps its order. */
  lemma OrderedRequiredFirst(xs: seq<Entry>)
    ensures multiset(OrderByDescending(xs)) == multiset(xs)
    ensures forall i, j :: 0 <= i < j < |OrderByDescending(xs)| && OrderByDescending(xs)[j].first ==> OrderByDescending(xs)[i].first
    ensures Firsts(OrderByDescending(xs)) == Firsts(xs) && Others(OrderByDescending(xs)) == Others(xs)
  {
    OrderIsStablePartition(xs);
    PartitionPermutes(xs);
    FirstsAreFirst(xs);
    var o := OrderByDescending(xs);
    forall j | 0 <= j < |o|
      ensures o[j].first ==> j < |Firsts(xs)|
    {
      if j >= |Firsts(xs)| {
        assert o[j] == Others(xs)[j - |Firsts(xs)|];
      }
    }
    FiltersOfSorted(Firsts(xs), Others(xs));
  }

  lemma {:induction false} FiltersOfSorted(a: seq<Entry>, b: seq<Entry>)
    requires forall i :: 0 <= i < |a| ==> a[i].first
    requires forall i :: 0 <= i < |b| ==> !b[i].first
    ensures Firsts(a + b) == a && Others(a + b) == b
  {
    FiltersAppend(a, b);
    AllFirst(a);
    NoneFirst(b);
  }

  lemma {:induction false} FiltersAppend(a: seq<Entry>, b: seq<Entry>)
    ensures Firsts(a + b) == Firsts(a) + Firsts(b) && Others(a + b) == Others(a) + Others(b)
  {
    FirstsAppend(a, b);
    OthersAppend(a, b);
  }

  lemma {:induction false} FirstsAppend(a: seq<Entry>, b: seq<Entry>)
    ensures Firsts(a + b) == Firsts(a) + Firsts(b)
  {
    if a == [] {
      assert a + b == b;
    } else {
      FirstsAppend(a[1..], b);
      assert (a + b)[1..] == a[1..] + b;
      var head := if a[0].first then [a[0]] else [];
      assert Firsts(a + b) == head + (Firsts(a[1..]) + Firsts(b));
      Associative(head, Firsts(a[1..]), Firsts(b));
    }
  }

  lemma {:induction false} OthersAppend(a: seq<Entry>, b: seq<Entry>)
    ensures Others(a + b) == Others(a) + Others(b)
  {
    if a == [] {
      assert a + b == b;
    } else {
      OthersAppend(a[1..], b);
      assert (a + b)[1..] == a[1..] + b;
      var head := if a[0].first then [] else [a[0]];
      assert Others(a + b) == head + (Others(a[1..]) + Others(b));
      Associative(head, Others(a[1..]), Others(b));
    }
  }

  lemma {:induction false} AllFirst(a: seq<Entry>)
    requires forall i :: 0 <= i < |a| ==> a[i].first
    ensures Firsts(a) == a && Others(a) == []
  {
    if a != [] {
      AllFirst(a[1..]);
      assert a == [a[0]] + a[1..];
    }
  }

  lemma {:induction false} NoneFirst(b: seq<Entry>)
    requires forall i :: 0 <= i < |b| ==> !b[i].first
    ensures Firsts(b) == [] && Others(b) == b
  {
    if b != [] {
      NoneFirst(b[1..]);
      assert b == [b[0]] + b[1..];
    }
  }

  function Texts(es: seq<Entry>): (r: seq<string>)
    ensures |r| == |es| && forall i :: 0 <= i < |es| ==> r[i] == es[i].text
  {
    seq(|es|, i requires 0 <= i < |es| => es[i].text)
  }

  /** The entries of the parameter list: the kept parameters keyed by whether
      they are required, then the body, which counts as required. */
  function Entries(declarations: seq<(string, Parameter)>, body: Option<string>): (r: seq<Entry>)
    ensures |r| == |declarations| + (if body.Some? then 1 else 0)
  {
    seq(|declarations|, i requires 0 <= i < |declarations| => Entry(declarations[i].0, declarations[i].1.required))
    + (if body.Some? then [Entry(body.value, true)] else [])
  }

  /** The body parameter follows the required parameters and precedes the
      optional ones. */
  lemma BodyBetween(declarations: seq<(string, Parameter)>, body: string)
    ensures var es := Entries(declarations, None);
            OrderByDescending(Entries(declarations, Some(body))) == Firsts(es) + [Entry(body, true)] + Others(es)
  {
    var es := Entries(declarations, None);
    var all := Entries(declarations, Some(body));
    assert all == es + [Entry(body, true)];
    OrderIsStablePartition(all);
    SplitAppend(es, Entry(body, true));
  }

  lemma {:induction false} SplitAppend(xs: seq<Entry>, e: Entry)
    requires e.first
    ensures Firsts(xs + [e]) == Firsts(xs) + [e] && Others(xs + [e]) == Others(xs)
  {
    if xs == [] {
      assert xs + [e] == [e];
    } else {
      SplitAppend(xs[1..], e);
      assert (xs + [e])[1..] == xs[1..] + [e];
    }
  }

  /** The text between the parentheses, without the cancellation token. */
  function ParameterList(declarations: seq<(string, Parameter)>, body: Option<string>): string {
    Join(", ", Texts(OrderByDescending(Entries(declarations, body))))
  }

  /** The signature text as written: the asynchronous method always puts ", "
      in front of the cancellation token. */
  function SignatureTextAsWritten(methodName: string, list: string, async: bool): string {
    if async then methodName + "Async(" + list + ", " + CancellationParameter + ")"
    else methodName + "(" + list + ")"
  }

  /** The signature text with the separator only between two parameters. */
  function SignatureText(methodName: string, list: string, async: bool): string {
    if async then methodName + "Async(" + (if list == "" then "" else list + ", ") + CancellationParameter + ")"
    else methodName + "(" + list + ")"
  }

  /** `GetMethodSignature`. `operationName` is what the generator settings
      name the operation; `responseKey` is the status key of the operation's
      first response and `responseType` the media type chosen from it. */
  function GetMethodSignature(operationType: OperationType, operationName: string, methodSuffix: string,
                              operation: Operation, responseKey: string, responseType: Option<(string, Schema)>,
                              async: bool): (r: Result<Signature, Error>)
    ensures r.Ok? ==> |r.value.parameters| == |Kept(operation.parameters)|
    ensures r.Ok? ==> (r.value.body.Some? <==> operation.requestBody.Some?)
    ensures SupportedOperation(operationType) && responseKey in {"200", "201"} ==>
              var returned := if responseType.Some?
                              then MediaType(responseType.value.0, responseType.value.1, Some(operationName + methodSuffix + "Response"), true)
                              else Ok("");
              && (returned.Err? ==> r == Err(returned.error))
              && (r.Ok? ==> r.value.returnType == returned.value)
  {
    if !SupportedOperation(operationType) then Err(OperationError)
    else
      var methodName := operationName + methodSuffix;
      if !(responseKey == "200" || responseKey == "201") then Err(ResponseError)
      else
        var returnType :- if responseType.Some?
                          then MediaType(responseType.value.0, responseType.value.1, Some(methodName + "Response"), true)
                          else Ok("");
        if operation.parameters == [] && operation.requestBody.None? then
          Ok(Signature(SignatureText(methodName, "", async), returnType, [], None))
        else
          var body :- if operation.requestBody.Some?
                      then var b :- BodyParameter(operation.requestBody.value, methodName); Ok(Some(b))
                      else Ok(None);
          // the parameter declarations are made lazily, when the list is joined
          var declarations :- Declarations(Kept(operation.parameters));
          var list := ParameterList(declarations, body);
          Ok(Signature(SignatureText(methodName, list, async), returnType, declarations, body))
  }

  /** Only get, put, post and delete operations with a "200" or "201" response
      are accepted, and the operation check comes before the response check. */
  lemma AcceptedOperations(operationType: OperationType, operationName: string, methodSuffix: string,
                           operation: Operation, responseKey: string, responseType: Option<(string, Schema)>, async: bool)
    ensures var r := GetMethodSignature(operationType, operationName, methodSuffix, operation, responseKey, responseType, async);
            && (!SupportedOperation(operationType) ==> r == Err(OperationError))
            && (SupportedOperation(operationType) && responseKey !in {"200", "201"} ==> r == Err(ResponseError))
            && (r.Ok? ==> SupportedOperation(operationType) && responseKey in {"200", "201"})
  {
  }

  /** Once the operation, the response key and the return type are accepted,
      an unsupported request body fails the signature before any parameter
      type is looked at. */
  lemma BodyErrorBeforeParameters(operationType: OperationType, operationName: string, methodSuffix: string,
                                  operation: Operation, responseKey: string, responseType: Option<(string, Schema)>, async: bool)
    requires SupportedOperation(operationType) && responseKey in {"200", "201"}
    requires responseType.Some? ==> MediaType(responseType.value.0, responseType.value.1, Some(operationName + methodSuffix + "Response"), true).Ok?
    requires operation.requestBody.Some? && BodyParameter(operation.requestBody.value, operationName + methodSuffix).Err?
    ensures GetMethodSignature(operationType, operationName, methodSuffix, operation, responseKey, responseType, async)
            == Err(BodyParameter(operation.requestBody.value, operationName + methodSuffix).error)
  {
  }

  /** Without parameters and body the signature is `name()`, or
      `nameAsync(CancellationToken cancellationToken = default)`. */
  lemma NoParameters(operationType: OperationType, operationName: string, methodSuffix: string,
                     responseKey: string, responseType: Option<(string, Schema)>, async: bool)
    ensures var r := GetMethodSignature(operationType, operationName, methodSuffix, Operation([], None), responseKey, responseType, async);
            var name := operationName + methodSuffix;
            r.Ok? ==> r.value.text == (if async then name + "Async(" + CancellationParameter + ")" else name + "()")
                      && r.value.parameters == [] && r.value.body.None?
  {
  }

  /** The asynchronous method takes the synchronous method's parameters and
      then the cancellation token; both succeed or fail alike, with the same
      return type, parameters and body. */
  lemma AsyncMatchesSync(operationType: OperationType, operationName: string, methodSuffix: string,
                         operation: Operation, responseKey: string, responseType: Option<(string, Schema)>)
    ensures var sync := GetMethodSignature(operationType, operationName, methodSuffix, operation, responseKey, responseType, false);
            var async := GetMethodSignature(operationType, operationName, methodSuffix, operation, responseKey, responseType, true);
            var name := operationName + methodSuffix;
            && (sync.Ok? <==> async.Ok?)
            && (sync.Err? ==> sync == async)
            && (sync.Ok? ==>
                  && sync.value.returnType == async.value.returnType
                  && sync.value.parameters == async.value.parameters
                  && sync.value.body == async.value.body
                  && |sync.value.text| >= |name| + 2
                  && var list := sync.value.text[|name| + 1..|sync.value.text| - 1];
                     && sync.value.text == name + "(" + list + ")"
                     && async.value.text == name + "Async(" + (if list == "" then "" else list + ", ") + CancellationParameter + ")")
  {
    var sync := GetMethodSignature(operationType, operationName, methodSuffix, operation, responseKey, responseType, false);
    if sync.Ok? {
      var name := operationName + methodSuffix;
      var list := "";
      if operation.parameters != [] || operation.requestBody.Some? {
        SignatureParts(operationType, operationName, methodSuffix, operation, responseKey, responseType, false);
        list := ParameterList(sync.value.parameters, sync.value.body);
      }
      assert sync.value.text == name + "(" + list + ")";
      MiddleOf(name + "(", list, ")");
    }
  }

  /** A successful signature keeps the path and query parameters, in their
      original order, and orders the list required first (the body counting
      as required), keeping the order within each group. */
  lemma SignatureParameters(operationType: OperationType, operationName: string, methodSuffix: string,
                            operation: Operation, responseKey: string, responseType: Option<(string, Schema)>, async: bool)
    requires operation.parameters != [] || operation.requestBody.Some?
    ensures var r := GetMethodSignature(operationType, operationName, methodSuffix, operation, responseKey, responseType, async);
            r.Ok? ==>
              && |r.value.parameters| == |Kept(operation.parameters)|
              && (forall i :: 0 <= i < |r.value.parameters| ==> r.value.parameters[i].1 == Kept(operation.parameters)[i])
              && var ordered := OrderByDescending(Entries(r.value.parameters, r.value.body));
                 && r.value.text == SignatureText(operationName + methodSuffix, Join(", ", Texts(ordered)), async)
                 && multiset(ordered) == multiset(Entries(r.value.parameters, r.value.body))
                 && (forall i, j :: 0 <= i < j < |ordered| && ordered[j].first ==> ordered[i].first)
  {
    var r := GetMethodSignature(operationType, operationName, methodSuffix, operation, responseKey, responseType, async);
    if r.Ok? {
      SignatureParts(operationType, operationName, methodSuffix, operation, responseKey, responseType, async);
      OrderedRequiredFirst(Entries(r.value.parameters, r.value.body));
    }
  }

  lemma SignatureParts(operationType: OperationType, operationName: string, methodSuffix: string,
                       operation: Operation, responseKey: string, responseType: Option<(string, Schema)>, async: bool)
    requires operation.parameters != [] || operation.requestBody.Some?
    ensures var r := GetMethodSignature(operationType, operationName, methodSuffix, operation, responseKey, responseType, async);
            r.Ok? ==>
              && Declarations(Kept(operation.parameters)).Ok?
              && r.value.parameters == Declarations(Kept(operation.parameters)).value
              && r.value.text == SignatureText(operationName + methodSuffix, ParameterList(r.value.parameters, r.value.body), async)
  {
  }

  /** Header and cookie parameters never make it into the signature, so
      their schemas cannot make it fail; of the kept ones the first whose type
      fails decides the error, after the body has been checked. */
  lemma ParameterErrors(operationType: OperationType, operationName: string, methodSuffix: string,
                        operation: Operation, responseKey: string, responseType: Option<(string, Schema)>, async: bool)
    requires SupportedOperation(operationType) && responseKey in {"200", "201"}
    requires responseType.None? && operation.requestBody.None?
    ensures var r := GetMethodSignature(operationType, operationName, methodSuffix, operation, responseKey, responseType, async);
            && (r.Ok? <==> forall p :: p in operation.parameters && InUrl(p) ==> GetType(p.schema, None).Ok?)
  {
    var kept := Kept(operation.parameters);
    KeptExactly(operation.parameters);
    var d := Declarations(kept);
    if d.Err? {
      var i :| 0 <= i < |kept| && ParameterText(kept[i]) == Err(d.error);
      assert kept[i] in kept;
    } else {
      forall p | p in operation.parameters && InUrl(p)
        ensures GetType(p.schema, None).Ok?
      {
        assert p in kept;
        var i :| 0 <= i < |kept| && kept[i] == p;
      }
    }
  }

  /** An operation whose only parameter is a header parameter and that has
      no body: as written its asynchronous signature opens with ", ". */
  lemma LeadingCommaCounterexample()
    ensures var op := Operation([Parameter("trace", Header, true, Schema(None, Some("string"), None, None, None, [], false))], None);
            var r := GetMethodSignature(Get, "GetInfo", "", op, "200", None, true);
            && r.Ok?
            && r.value.parameters == [] && r.value.body.None?
            && ParameterList(r.value.parameters, r.value.body) == ""
            && SignatureTextAsWritten("GetInfo", ParameterList(r.value.parameters, r.value.body), true)
               == "GetInfoAsync(" + ", " + CancellationParameter + ")"
            && r.value.text == "GetInfoAsync(" + CancellationParameter + ")"
  {
    var p := Parameter("trace", Header, true, Schema(None, Some("string"), None, None, None, [], false));
    assert Kept([p]) == [];
    assert Declarations([]) == Ok([]);
    assert Entries([], None) == [];
    assert Texts([]) == [];
    assert ParameterList([], None) == "";
    assert "GetInfo" + "" == "GetInfo";
    assert "GetInfo" + "Async(" == "GetInfoAsync(";
    assert "GetInfoAsync(" + "" == "GetInfoAsync(";
  }

  /** The return type as declared: `void` or `Task` without a result, the
      result type or `Task<…>` of it otherwise. */
  function PreparedReturnType(returnType: string, async: bool): (r: string)
    ensures async ==> StartsWith(r, "Task")
    ensures !async && !IsBlank(returnType) ==> r == returnType
  {
    if IsBlank(returnType) then (if async then "Task" else "void")
    else if async then "Task<" + returnType + ">" else returnType
  }

  /** The asynchronous return type wraps the synchronous one in a task. */
  lemma ReturnTypeWrapping(returnType: string)
    ensures IsBlank(returnType) ==> PreparedReturnType(returnType, false) == "void" && PreparedReturnType(returnType, true) == "Task"
    ensures !IsBlank(returnType) ==> PreparedReturnType(returnType, true) == "Task<" + PreparedReturnType(returnType, false) + ">"
                                     && PreparedReturnType(returnType, false) == returnType
  {
  }

  /** The method-name suffix for one media type of a response: none when the
      response has one media type, otherwise the one the suffix table gives;
      a media type missing from the table is a lookup failure. */
  function MethodSuffix(contentCount: nat, key: string): (r: Result<string, Error>)
    ensures r.Ok? <==> contentCount == 1 || key in {"application/octet-stream", "application/json"}
    ensures r.Ok? && contentCount != 1 ==> r.value != ""
  {
    if contentCount == 1 then Ok("")
    else if key == "application/octet-stream" then Ok("AsStream")
    else if key == "application/json" then Ok("AsJson")
    else Err("The given key '" + key + "' was not present in the dictionary.")
  }

  /** The methods generated for a response: one pair without a response type
      when it has no content, otherwise one pair per media type with its
      suffix. */
  function ResponseMethods(content: seq<(string, Schema)>): (r: Result<seq<(string, Option<(string, Schema)>)>, Error>)
    ensures r.Ok? && content == [] ==> r.value == [("", None)]
  {
    if content == [] then Ok([("", None)])
    else MethodsFor(content, |content|)
  }

  function MethodsFor(content: seq<(string, Schema)>, count: nat): (r: Result<seq<(string, Option<(string, Schema)>)>, Error>)
    ensures r.Ok? ==> |r.value| == |content|
                      && forall i :: 0 <= i < |content| ==> MethodSuffix(count, content[i].0).Ok?
                                                             && r.value[i] == (MethodSuffix(count, content[i].0).value, Some(content[i]))
  {
    if content == [] then Ok([])
    else
      var suffix :- MethodSuffix(count, content[0].0);
      var rest :- MethodsFor(content[1..], count);
      Ok([(suffix, Some(content[0]))] + rest)
  }

  /** Distinct media types of one response give distinct method names. */
  lemma SuffixesDistinct(content: seq<(string, Schema)>)
    requires forall i, j :: 0 <= i < j < |content| ==> content[i].0 != content[j].0
    ensures var r := ResponseMethods(content);
            r.Ok? ==> forall i, j :: 0 <= i < j < |r.value| ==> r.value[i].0 != r.value[j].0
  {
    var r := ResponseMethods(content);
    if r.Ok? && content != [] {
      forall i, j | 0 <= i < j < |r.value|
        ensures r.value[i].0 != r.value[j].0
      {
        assert |content| > 1;
        assert content[i].0 != content[j].0;
      }
    }
  }

  /** `GetFirstLine`: nothing for nothing, otherwise the first line. */
  function GetFirstLine(value: Option<string>): (r: Option<string>)
    ensures r.Some? ==> value.Some? && StartsWith(value.value, r.value) && NoLineBreak(r.value)
  {
    if value.None? then None else FirstLine(value.value)
  }

  /** A text without line breaks is its own first line; otherwise the first
      line stops right before the first break. */
  lemma {:induction false} FirstLineOfOneLine(s: string)
    requires s != [] && NoLineBreak(s)
    ensures GetFirstLine(Some(s)) == Some(s)
    decreases |s|
  {
    if |s| > 1 {
      FirstLineOfOneLine(s[1..]);
      assert [s[0]] + s[1..] == s;
    } else {
      assert s[1..] == [];
      assert s == [s[0]] + "";
    }
  }

  lemma {:induction false} FirstLineStopsAtBreak(a: string, b: string)
    requires NoLineBreak(a) && b != [] && IsLineBreak(b[0])
    ensures GetFirstLine(Some(a + b)) == Some(a)
    decreases |a|
  {
    if a == [] {
      assert a + b == b;
    } else {
      FirstLineStopsAtBreak(a[1..], b);
      assert (a + b)[1..] == a[1..] + b;
      assert [a[0]] + a[1..] == a;
    }
  }
}
