/**
 * What the C# generator emits around a signature: the version identifiers of
 * `Generate` and the query-string code of `AppendImplementationMethodSourceText`.
 */
module Emission {
  import opened Wrappers
  import opened Text
  import opened Schemas
  import opened Signatures

  /** A document's version as an identifier: dots become underscores, a blank
      version is skipped, "V" goes in front of anything that does not start
      with a letter, and the first letter is made upper case. */
  function VersionIdentifier(version: string): (r: Option<string>)
    ensures r.None? <==> IsBlank(version)
    ensures r.Some? ==> |r.value| > 0 && IsUpper(r.value[0])
    ensures r.Some? ==> forall i :: 0 <= i < |r.value| ==> r.value[i] != '.'
  {
    var v := ReplaceChar(version, '.', '_');
    if IsBlank(v) then None
    else
      var prefixed := if !IsLetter(v[0]) then "V" + v else v;
      Some(if !IsUpper(prefixed[0]) then FirstCharToUpper(prefixed) else prefixed)
  }

  /** The identifier keeps the version: a "V" in front of a version that does
      not start with a letter, then the version with its first letter in upper
      case and every dot an underscore. */
  lemma IdentifierKeepsVersion(version: string)
    requires !IsBlank(version)
    ensures var id := VersionIdentifier(version).value;
            var offset := if IsLetter(version[0]) then 0 else 1;
            && |id| == |version| + offset
            && (offset == 0 ==> id[0] == ToUpper(version[0]))
            && (offset == 1 ==> id[0] == 'V' && id[1] == (if version[0] == '.' then '_' else version[0]))
            && forall i :: 1 <= i < |version| ==> id[offset + i] == (if version[i] == '.' then '_' else version[i])
  {
    var v := ReplaceChar(version, '.', '_');
    assert IsBlank(v) ==> IsBlank(version);
    assert IsLetter(v[0]) == IsLetter(version[0]);
  }

  /** The identifiers of the documents' versions, skipping blank ones. */
  function Identifiers(versions: seq<string>): seq<string> {
    if versions == [] then []
    else
      var last := VersionIdentifier(versions[|versions| - 1]);
      Identifiers(versions[..|versions| - 1]) + (if last.Some? then [last.value] else [])
  }

  /** Every identifier is a valid upper-case name, one for each non-blank version. */
  lemma {:induction false} IdentifiersValid(versions: seq<string>)
    ensures |Identifiers(versions)| <= |versions|
    ensures (forall i :: 0 <= i < |versions| ==> !IsBlank(versions[i])) ==> |Identifiers(versions)| == |versions|
    ensures forall i :: 0 <= i < |Identifiers(versions)| ==>
              |Identifiers(versions)[i]| > 0 && IsUpper(Identifiers(versions)[i][0])
              && forall k :: 0 <= k < |Identifiers(versions)[i]| ==> Identifiers(versions)[i][k] != '.'
  {
    if versions != [] {
      IdentifiersValid(versions[..|versions| - 1]);
    }
  }

  /** The per-document loop of `Generate`, reduced to the identifiers it
      derives for the documents it does not skip. */
  method VersionIdentifiers(versions: seq<string>) returns (ids: seq<string>)
    ensures ids == Identifiers(versions)
  {
    ids := [];
    var i := 0;
    while i < |versions|
      invariant 0 <= i <= |versions|
      invariant ids == Identifiers(versions[..i])
    {
      assert versions[..i + 1][..i] == versions[..i];
      var version := ReplaceChar(versions[i], '.', '_');
      if !IsBlank(version) {
        if !IsLetter(version[0]) {
          version := "V" + version;
        }
        if !IsUpper(version[0]) {
          version := FirstCharToUpper(version);
        }
        ids := ids + [version];
      }
      i := i + 1;
    }
    assert versions[..i] == versions;
  }

  /** A statement written into the generated method to fill the query values. */
  datatype QueryStatement =
    | Assign(key: string, value: string)
    | IfNotNull(variable: string, key: string, value: string)

  /** Optional and nullable query parameters may be null at run time. */
  predicate Guarded(p: Parameter) {
    !p.required || p.schema.nullable
  }

  function EscapedValue(code: string): string {
    "Uri.EscapeDataString(" + code + ")"
  }

  /** The statement for one query parameter, given its to-string code. */
  function Statement(p: Parameter, code: string): QueryStatement {
    if Guarded(p) then IfNotNull(p.name, p.name, EscapedValue(code)) else Assign(p.name, EscapedValue(code))
  }

  function AssignLine(indent: string, key: string, value: string): string {
    indent + "__queryValues[\"" + key + "\"] = " + value + ";"
  }

  function GuardLine(variable: string): string {
    "        if (" + variable + " is not null)"
  }

  /** The lines a statement is written as, followed by an empty line. */
  function StatementLines(s: QueryStatement): seq<string> {
    match s
    case Assign(k, v) => [AssignLine("        ", k, v), ""]
    case IfNotNull(x, k, v) => [GuardLine(x), AssignLine("            ", k, v), ""]
  }

  /** The key/value pairs a statement puts into the query values at run time;
      `isNull` says which parameters the caller passed as null. */
  function Perform(s: QueryStatement, isNull: string -> bool): seq<(string, string)> {
    match s
    case Assign(k, v) => [(k, v)]
    case IfNotNull(x, k, v) => if isNull(x) then [] else [(k, v)]
  }

  /** Required non-nullable query parameters are always sent; optional or
      nullable ones only when they are not null. */
  lemma SentUnlessNull(p: Parameter, code: string, isNull: string -> bool)
    ensures Perform(Statement(p, code), isNull)
            == if !Guarded(p) || !isNull(p.name) then [(p.name, EscapedValue(code))] else []
    ensures StatementLines(Statement(p, code))[0] == GuardLine(p.name) <==> Guarded(p)
  {
    if !Guarded(p) {
      var line := StatementLines(Statement(p, code))[0];
      assert line == AssignLine("        ", p.name, EscapedValue(code));
      assert line[8] == '_';
      assert GuardLine(p.name)[8] == 'i';
    }
  }

  /** The query parameters among a signature's declarations, in their
      original order. */
  function QueryParameters(declarations: seq<(string, Parameter)>): (r: seq<Parameter>)
    ensures forall i :: 0 <= i < |r| ==> r[i].location == Query
    ensures forall i :: 0 <= i < |declarations| && declarations[i].1.location == Query ==> declarations[i].1 in r
  {
    if declarations == [] then []
    else
      assert forall i :: 0 <= i < |declarations| - 1 ==> declarations[..|declarations| - 1][i] == declarations[i];
      QueryParameters(declarations[..|declarations| - 1])
      + (if declarations[|declarations| - 1].1.location == Query then [declarations[|declarations| - 1].1] else [])
  }

  /** Every parameter kept comes from a declaration. */
  lemma {:induction false} QueryParametersFrom(declarations: seq<(string, Parameter)>)
    ensures forall p :: p in QueryParameters(declarations) ==> exists i :: 0 <= i < |declarations| && declarations[i].1 == p
  {
    if declarations != [] {
      QueryParametersFrom(declarations[..|declarations| - 1]);
    }
  }

  /** Keeping the query parameters commutes with concatenation, so each group
      of declarations contributes its own query parameters in their order. */
  lemma {:induction false} QueryParametersAppend(a: seq<(string, Parameter)>, b: seq<(string, Parameter)>)
    ensures QueryParameters(a + b) == QueryParameters(a) + QueryParameters(b)
    decreases |b|
  {
    if b == [] {
      assert a + b == a;
    } else {
      var n := |b|;
      assert (a + b)[..|a + b| - 1] == a + b[..n - 1];
      assert (a + b)[|a + b| - 1] == b[n - 1];
      QueryParametersAppend(a, b[..n - 1]);
      var last := if b[n - 1].1.location == Query then [b[n - 1].1] else [];
      Associative(QueryParameters(a), QueryParameters(b[..n - 1]), last);
    }
  }

  predicate Typed(ps: seq<Parameter>) {
    forall i :: 0 <= i < |ps| ==> GetType(ps[i].schema, None).Ok?
  }

  /** The statements for the query parameters, in order. */
  function Statements(ps: seq<Parameter>): (r: seq<QueryStatement>)
    requires Typed(ps)
    ensures |r| == |ps|
  {
    if ps == [] then []
    else
      var p := ps[|ps| - 1];
      Statements(ps[..|ps| - 1]) + [Statement(p, ParameterToStringCode(p.name, p.schema).value)]
  }

  /** Statement `i` is the statement of query parameter `i`. */
  lemma {:induction false} StatementsAt(ps: seq<Parameter>)
    requires Typed(ps)
    ensures forall i :: 0 <= i < |ps| ==> Statements(ps)[i] == Statement(ps[i], ParameterToStringCode(ps[i].name, ps[i].schema).value)
    decreases |ps|
  {
    if ps != [] {
      var init := ps[..|ps| - 1];
      assert Typed(init);
      StatementsAt(init);
      assert forall i :: 0 <= i < |ps| - 1 ==> init[i] == ps[i];
    }
  }

  function Lines(stmts: seq<QueryStatement>): seq<string> {
    if stmts == [] then [] else Lines(stmts[..|stmts| - 1]) + StatementLines(stmts[|stmts| - 1])
  }

  /** Everything the statements send at run time, in order. */
  function Sent(stmts: seq<QueryStatement>, isNull: string -> bool): seq<(string, string)> {
    if stmts == [] then [] else Sent(stmts[..|stmts| - 1], isNull) + Perform(stmts[|stmts| - 1], isNull)
  }

  const QueryHeader: seq<string> := ["", "        var __queryValues = new Dictionary<string, string>();", ""]

  const QueryFooter: seq<string> := [
    "        var __query = \"?\" + string.Join('&', __queryValues.Select(entry => $\"{entry.Key}={entry.Value}\"));",
    "        __urlBuilder.Append(__query);"]

  /** The lines written for the query parameters: nothing without any,
      otherwise the dictionary, one statement per parameter and the query. */
  function QueryBlock(ps: seq<Parameter>): seq<string>
    requires Typed(ps)
  {
    if ps == [] then [] else QueryHeader + Lines(Statements(ps)) + QueryFooter
  }

  lemma {:induction false} LinesPrefix(stmts: seq<QueryStatement>, k: nat)
    requires k <= |stmts|
    ensures |Lines(stmts[..k])| <= |Lines(stmts)|
    ensures Lines(stmts)[..|Lines(stmts[..k])|] == Lines(stmts[..k])
    decreases |stmts| - k
  {
    if k < |stmts| {
      var n := |stmts|;
      LinesPrefix(stmts[..n - 1], k);
      assert stmts[..n - 1][..k] == stmts[..k];
      var a := Lines(stmts[..n - 1]);
      assert Lines(stmts) == a + StatementLines(stmts[n - 1]);
      PrefixOfAppend(a, StatementLines(stmts[n - 1]), |Lines(stmts[..k])|);
    } else {
      assert stmts[..k] == stmts;
    }
  }

  /** The statement of the `i`-th query parameter is written, whole, right
      after those of the parameters before it. */
  lemma StatementInPlace(stmts: seq<QueryStatement>, i: nat)
    requires i < |stmts|
    ensures var start := |Lines(stmts[..i])|;
            var block := StatementLines(stmts[i]);
            && start + |block| <= |Lines(stmts)|
            && Lines(stmts)[start..start + |block|] == block
  {
    LinesPrefix(stmts, i + 1);
    var upto := stmts[..i + 1];
    assert upto[..i] == stmts[..i];
    var prefix := Lines(stmts[..i]);
    assert Lines(upto) == prefix + StatementLines(stmts[i]);
    var all := Lines(stmts);
    assert all[..|Lines(upto)|] == Lines(upto);
    assert all[|prefix|..|Lines(upto)|] == Lines(upto)[|prefix|..];
  }

  /** At line `at` of `block`, parameter `p`'s statement is written: its null
      check exactly when it is optional or nullable, then the assignment. */
  predicate WrittenAt(block: seq<string>, at: nat, p: Parameter, code: string) {
    && at + 1 < |block|
    && (Guarded(p) ==>
          && block[at] == GuardLine(p.name)
          && block[at + 1] == AssignLine("            ", p.name, EscapedValue(code)))
    && (!Guarded(p) ==>
          && block[at] != GuardLine(p.name)
          && block[at] == AssignLine("        ", p.name, EscapedValue(code)))
  }

  /** In the lines written, the `i`-th query parameter's statement begins with
      its null check exactly when it is optional or nullable; the assignment
      follows, under the check or on its own line. */
  lemma WrittenUnderGuard(ps: seq<Parameter>, i: nat)
    requires Typed(ps) && i < |ps|
    ensures WrittenAt(QueryBlock(ps), |QueryHeader| + |Lines(Statements(ps)[..i])|,
                      ps[i], ParameterToStringCode(ps[i].name, ps[i].schema).value)
  {
    StatementOf(ps, i);
    BlockAroundLines(ps);
    StatementWritten(Statements(ps), i, ps[i], ParameterToStringCode(ps[i].name, ps[i].schema).value);
  }

  lemma StatementOf(ps: seq<Parameter>, i: nat)
    requires Typed(ps) && i < |ps|
    ensures Statements(ps)[i] == Statement(ps[i], ParameterToStringCode(ps[i].name, ps[i].schema).value)
  {
    StatementsAt(ps);
  }

  lemma BlockAroundLines(ps: seq<Parameter>)
    requires Typed(ps) && ps != []
    ensures QueryBlock(ps) == QueryHeader + Lines(Statements(ps)) + QueryFooter
  {
  }

  /** The lines of statement `i` between the header and the footer. */
  lemma StatementWritten(stmts: seq<QueryStatement>, i: nat, p: Parameter, code: string)
    requires i < |stmts| && stmts[i] == Statement(p, code)
    ensures WrittenAt(QueryHeader + Lines(stmts) + QueryFooter, |QueryHeader| + |Lines(stmts[..i])|, p, code)
  {
    StatementInPlace(stmts, i);
    var start := |Lines(stmts[..i])|;
    var lines := Lines(stmts);
    var written := StatementLines(stmts[i]);
    StatementShape(p, code);
    IndexInSlice(lines, start, written, 0);
    IndexInSlice(lines, start, written, 1);
    IndexInMiddle(QueryHeader, lines, QueryFooter, start);
    IndexInMiddle(QueryHeader, lines, QueryFooter, start + 1);
  }

  /** A statement's first line is the null check exactly for a guarded
      parameter, and the assignment follows it or stands alone. */
  lemma StatementShape(p: Parameter, code: string)
    ensures var written := StatementLines(Statement(p, code));
            && |written| >= 2
            && (written[0] == GuardLine(p.name) <==> Guarded(p))
            && (Guarded(p) ==> written[1] == AssignLine("            ", p.name, EscapedValue(code)))
            && (!Guarded(p) ==> written[0] == AssignLine("        ", p.name, EscapedValue(code)))
  {
    if !Guarded(p) {
      var line := StatementLines(Statement(p, code))[0];
      assert line[8] == '_';
      assert GuardLine(p.name)[8] == 'i';
    }
  }

  /** The run-time value of a required, non-nullable query parameter is always
      sent, under the parameter's own name. */
  lemma {:induction false} RequiredAlwaysSent(ps: seq<Parameter>, isNull: string -> bool, i: nat)
    requires Typed(ps) && i < |ps| && !Guarded(ps[i])
    ensures (ps[i].name, EscapedValue(ParameterToStringCode(ps[i].name, ps[i].schema).value)) in Sent(Statements(ps), isNull)
    decreases |ps|
  {
    var n := |ps|;
    var init := ps[..n - 1];
    assert Typed(init);
    SentUnlessNull(ps[i], ParameterToStringCode(ps[i].name, ps[i].schema).value, isNull);
    assert Statements(ps)[..n - 1] == Statements(init);
    if i < n - 1 {
      assert init[i] == ps[i];
      RequiredAlwaysSent(init, isNull, i);
    }
  }

  /** The "key=value" entries joined with '&', as `string.Join` writes them. */
  function JoinEntries(pairs: seq<(string, string)>): (r: string)
    ensures r == [] <==> pairs == []
    ensures pairs != [] ==> EndsWith(r, pairs[|pairs| - 1].0 + "=" + pairs[|pairs| - 1].1)
  {
    if pairs == [] then ""
    else
      var entry := pairs[|pairs| - 1].0 + "=" + pairs[|pairs| - 1].1;
      var init := if |pairs| == 1 then "" else JoinEntries(pairs[..|pairs| - 1]) + "&";
      EndsWithAppended(init, entry);
      init + entry
  }

  /** The query string the generated method appends to the URL at run time:
      "?" followed by the entries that were set. */
  function QueryString(pairs: seq<(string, string)>): (r: string)
    ensures |r| > 0 && r[0] == '?'
    ensures r == "?" <==> pairs == []
  {
    "?" + JoinEntries(pairs)
  }

  /** Statements send nothing exactly when none of them sends anything. */
  lemma {:induction false} SentEmpty(stmts: seq<QueryStatement>, isNull: string -> bool)
    ensures Sent(stmts, isNull) == [] <==> forall i :: 0 <= i < |stmts| ==> Perform(stmts[i], isNull) == []
    decreases |stmts|
  {
    if stmts != [] {
      var n := |stmts|;
      var init := stmts[..n - 1];
      SentEmpty(init, isNull);
      var last := Perform(stmts[n - 1], isNull);
      assert |Sent(stmts, isNull)| == |Sent(init, isNull)| + |last|;
      assert forall i :: 0 <= i < n - 1 ==> init[i] == stmts[i];
      assert (forall i :: 0 <= i < n ==> Perform(stmts[i], isNull) == [])
             <==> (forall i :: 0 <= i < n - 1 ==> Perform(init[i], isNull) == []) && last == [];
    }
  }

  /** Nothing is sent exactly when every query parameter is optional or
      nullable and was passed as null. */
  lemma NothingSent(ps: seq<Parameter>, isNull: string -> bool)
    requires Typed(ps)
    ensures Sent(Statements(ps), isNull) == [] <==> forall i :: 0 <= i < |ps| ==> Guarded(ps[i]) && isNull(ps[i].name)
  {
    var stmts := Statements(ps);
    StatementsAt(ps);
    SentEmpty(stmts, isNull);
    forall i | 0 <= i < |ps|
      ensures Perform(stmts[i], isNull) == [] <==> Guarded(ps[i]) && isNull(ps[i].name)
    {
      SentUnlessNull(ps[i], ParameterToStringCode(ps[i].name, ps[i].schema).value, isNull);
    }
  }

  /** The query string is a bare "?" exactly when every query parameter is
      optional or nullable and was passed as null. */
  lemma BareQuery(ps: seq<Parameter>, isNull: string -> bool)
    requires Typed(ps)
    ensures QueryString(Sent(Statements(ps), isNull)) == "?"
            <==> forall i :: 0 <= i < |ps| ==> Guarded(ps[i]) && isNull(ps[i].name)
  {
    NothingSent(ps, isNull);
  }

  /** The query-parameter part of `AppendImplementationMethodSourceText`: the
      lines it appends for a signature's declarations, taking each
      parameter's name from the parameter itself. */
  method AppendQuery(declarations: seq<(string, Parameter)>) returns (lines: seq<string>)
    requires Typed(QueryParameters(declarations))
    ensures lines == QueryBlock(QueryParameters(declarations))
  {
    var query := QueryParameters(declarations);
    lines := [];
    if |query| > 0 {
      lines := QueryHeader;
      var i := 0;
      while i < |query|
        invariant 0 <= i <= |query|
        invariant lines == QueryHeader + Lines(Statements(query[..i]))
      {
        var p := query[i];
        ghost var before := lines;
        var name := p.name;
        var code := ParameterToStringCode(name, p.schema).value;
        StatementsStep(query, i);
        var value := EscapedValue(code);
        ghost var written := StatementLines(Statement(p, code));
        ghost var done := Lines(Statements(query[..i]));
        if !p.required || p.schema.nullable {
          lines := lines + [GuardLine(name)];
          lines := lines + [AssignLine("            ", name, value)];
          lines := lines + [""];
          AppendThree(before, GuardLine(name), AssignLine("            ", name, value), "");
        } else {
          lines := lines + [AssignLine("        ", name, value)];
          lines := lines + [""];
          AppendTwo(before, AssignLine("        ", name, value), "");
        }
        Associative(QueryHeader, done, written);
        i := i + 1;
      }
      assert query[..i] == query;
      lines := lines + QueryFooter;
    }
  }

  lemma StatementsStep(query: seq<Parameter>, i: nat)
    requires Typed(query) && i < |query|
    ensures Typed(query[..i]) && Typed(query[..i + 1])
    ensures var p := query[i];
            Lines(Statements(query[..i + 1]))
            == Lines(Statements(query[..i])) + StatementLines(Statement(p, ParameterToStringCode(p.name, p.schema).value))
  {
    var upto := query[..i + 1];
    assert upto[..i] == query[..i];
    assert Statements(upto)[..i] == Statements(query[..i]);
  }

  /** The name as written: the second piece of the declaration split at
      spaces, where the index fails on fewer than two pieces. */
  function NameAsWritten(declaration: string): Option<string> {
    var pieces := SplitSpaces(declaration);
    if |pieces| < 2 then None else Some(pieces[1])
  }

  predicate NoSpace(s: string) {
    forall i :: 0 <= i < |s| ==> s[i] != ' '
  }

  /** For a type name without spaces the name as written is the parameter's
      name. */
  lemma NameAsWrittenPlainType(p: Parameter)
    requires GetType(p.schema, None).Ok? && NoSpace(GetType(p.schema, None).value) && NoSpace(p.name)
    ensures NameAsWritten(ParameterText(p).value) == Some(p.name)
  {
    var t := ApplyRequired(GetType(p.schema, None).value, p.required);
    assert NoSpace(t);
    var suffix := if p.required then "" else " = default";
    assert ParameterText(p).value == t + " " + p.name + suffix;
    SecondPiece(t, p.name, suffix);
  }

  /** The second piece of "type name" or "type name = default". */
  lemma SecondPiece(t: string, name: string, suffix: string)
    requires NoSpace(t) && NoSpace(name) && (suffix == "" || suffix == " = default")
    ensures NameAsWritten(t + " " + name + suffix) == Some(name)
  {
    var rest := name + suffix;
    Associative(t, " ", rest);
    Associative(t + " ", name, suffix);
    SplitAfterWord(t, rest);
    if suffix == "" {
      assert rest == name;
      SplitNoSpace(name);
    } else {
      assert suffix == " " + "= default";
      Associative(name, " ", "= default");
      SplitAfterWord(name, "= default");
    }
  }

  /** A required query parameter `filter` whose schema is a dictionary of
      integers. */
  function DictionaryParameter(): Parameter {
    Parameter("filter", Query, true,
              Schema(None, Some("object"), None, None, Some(Schema(None, Some("integer"), None, None, None, [], false)), [], false))
  }

  lemma DictionaryDeclaration()
    ensures ParameterText(DictionaryParameter()) == Ok("IReadOnlyDictionary<string," + " " + ("int>" + " " + "filter"))
  {
    var t := "IReadOnlyDictionary<string, " + "int" + ">";
    assert GetType(DictionaryParameter().schema, None) == Ok(t);
    assert ApplyRequired(t, true) == t;
    assert ParameterText(DictionaryParameter()) == Ok(t + " " + "filter" + "");
    assert t == "IReadOnlyDictionary<string," + " " + "int>";
    Associative("IReadOnlyDictionary<string," + " ", "int>" + " ", "filter");
    Associative("IReadOnlyDictionary<string,", " ", "int>" + " " + "filter");
    Associative("IReadOnlyDictionary<string," + " ", "int>", " ");
    assert t + " " + "filter" + "" == t + " " + "filter";
  }

  /** As written, the dictionary parameter's name is read as "int>", while its
      statement uses the parameter's own name. */
  lemma DictionaryNameCounterexample()
    ensures NameAsWritten(ParameterText(DictionaryParameter()).value) == Some("int>")
    ensures Statement(DictionaryParameter(), "Convert.ToString(filter, CultureInfo.InvariantCulture)!").key == "filter"
  {
    DictionaryDeclaration();
    var head := "IReadOnlyDictionary<string,";
    assert NoSpace(head);
    assert NoSpace("int>");
    var rest := "int>" + " " + "filter";
    SplitAfterWord(head, rest);
    SplitAfterWord("int>", "filter");
    var pieces := SplitSpaces(head + " " + rest);
    assert pieces == [head] + (["int>"] + SplitSpaces("filter"));
    assert pieces[1] == "int>";
  }
}
