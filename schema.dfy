/**
 * The OpenAPI schema as the C# generator reads it, and its mapping to C# type
 * names (`GetType` for schemas and for media types, `ApplyRequired`,
 * `GetParameterToStringCode`). A failure is the message of the exception the
 * generator would throw.
 */
module Schemas {
  import opened Wrappers
  import opened Text

  /** The parts of an OpenAPI schema that decide its C# type. `reference` is
      the `Reference.Id` of a referenced schema; `typ` and `format` are the
      `type` and `format` keywords. */
  datatype Schema = Schema(
    reference: Option<string>,
    typ: Option<string>,
    format: Option<string>,
    items: Option<Schema>,
    additionalProperties: Option<Schema>,
    oneOf: seq<Schema>,
    nullable: bool)

  type Error = string

  const OneOfError: Error := "Only zero or one entries are supported."
  const TypeNameError: Error := "Type name required."
  /** `GetType(schema.Items)` on an array without `items` dereferences null. */
  const NoItemsError: Error := "Object reference not set to an instance of an object."

  function UnsupportedType(typ: string): Error {
    "The schema type " + typ + " (or one of its formats) is not supported."
  }

  function UnsupportedMedia(key: string): Error {
    "The media type " + key + " is not supported."
  }

  /** The fixed table for the primitive type and format pairs. */
  function Primitive(typ: string, format: Option<string>): Option<string> {
    if typ == "boolean" then Some("bool")
    else if typ == "number" then Some("double")
    else if typ == "integer" then Some("int")
    else if typ == "string" then
      if format == Some("uri") then Some("Uri")
      else if format == Some("guid") then Some("Guid")
      else if format == Some("duration") then Some("TimeSpan")
      else if format == Some("date-time") then Some("DateTime")
      else Some("string")
    else None
  }

  /** The C# type of a schema before its nullability is applied.
      `anonymousTypeName` names the record generated for an inline object. */
  function BaseType(s: Schema, anonymousTypeName: Option<string>): Result<string, Error>
    decreases s, 0
  {
    if s.reference.Some? then Ok(s.reference.value)
    else if s.typ.None? then
      if |s.oneOf| == 0 then Ok("JsonElement")
      else if |s.oneOf| == 1 then GetType(s.oneOf[0], anonymousTypeName)
      else Err(OneOfError)
    else if Primitive(s.typ.value, s.format).Some? then Ok(Primitive(s.typ.value, s.format).value)
    else if s.typ.value == "array" then
      if s.items.None? then Err(NoItemsError)
      else
        var inner :- GetType(s.items.value, anonymousTypeName);
        Ok("IReadOnlyList<" + inner + ">")
    else if s.typ.value == "object" then
      if s.additionalProperties.None? then
        if anonymousTypeName.None? then Err(TypeNameError) else Ok(anonymousTypeName.value)
      else
        var inner :- GetType(s.additionalProperties.value, anonymousTypeName);
        Ok("IReadOnlyDictionary<string, " + inner + ">")
    else Err(UnsupportedType(s.typ.value))
  }

  /** `GetType(OpenApiSchema, string?)`. */
  function GetType(s: Schema, anonymousTypeName: Option<string>): (r: Result<string, Error>)
    ensures s.reference.Some? ==> r.Ok?
    ensures r.Ok? && s.nullable ==> EndsWith(r.value, "?")
    decreases s, 1
  {
    var t :- BaseType(s, anonymousTypeName);
    EndsWithAppended(t, "?");
    Ok(if s.nullable then t + "?" else t)
  }

  /** The schemas the generator can type, stated independently of `GetType`:
      a reference, or a type it knows whose nested schemas it can type. */
  predicate Supported(s: Schema, anonymousTypeName: Option<string>)
    decreases s
  {
    s.reference.Some?
    || (s.typ.None? && (|s.oneOf| == 0 || (|s.oneOf| == 1 && Supported(s.oneOf[0], anonymousTypeName))))
    || (s.typ.Some? && s.typ.value in {"boolean", "number", "integer", "string"})
    || (s.typ == Some("array") && s.items.Some? && Supported(s.items.value, anonymousTypeName))
    || (s.typ == Some("object") && s.additionalProperties.None? && anonymousTypeName.Some?)
    || (s.typ == Some("object") && s.additionalProperties.Some? && Supported(s.additionalProperties.value, anonymousTypeName))
  }

  /** `GetType` succeeds exactly on the supported schemas. */
  lemma {:induction false} TypedIffSupported(s: Schema, anonymousTypeName: Option<string>)
    ensures GetType(s, anonymousTypeName).Ok? <==> Supported(s, anonymousTypeName)
    decreases s
  {
    if s.reference.None? {
      if s.typ.None? {
        if |s.oneOf| == 1 { TypedIffSupported(s.oneOf[0], anonymousTypeName); }
      } else if s.typ == Some("array") && s.items.Some? {
        TypedIffSupported(s.items.value, anonymousTypeName);
      } else if s.typ == Some("object") && s.additionalProperties.Some? {
        TypedIffSupported(s.additionalProperties.value, anonymousTypeName);
      }
    }
  }

  /** A nullable schema's type is its non-nullable type with exactly one "?"
      appended; nullability never decides whether typing succeeds. */
  lemma NullableAppendsOneMark(s: Schema, anonymousTypeName: Option<string>)
    ensures var plain := GetType(s.(nullable := false), anonymousTypeName);
            var r := GetType(s, anonymousTypeName);
            && (r.Ok? <==> plain.Ok?)
            && (r.Ok? ==> r.value == if s.nullable then plain.value + "?" else plain.value)
  {
  }

  /** A reference wins: the schema's own type, format, items and the other
      keywords do not matter, and the type is the reference's id. */
  lemma ReferenceWins(s: Schema, t: Schema, a: Option<string>, b: Option<string>)
    requires s.reference.Some? && t.reference == s.reference && t.nullable == s.nullable
    ensures GetType(s, a) == GetType(t, b)
    ensures GetType(s, a).Ok? && StartsWith(GetType(s, a).value, s.reference.value)
  {
  }

  /** An array is typed as the read-only list of its items' type, and an
      object with `additionalProperties` as the read-only dictionary from
      string to that schema's type. */
  lemma ContainerTypes(s: Schema, anonymousTypeName: Option<string>)
    requires s.reference.None? && !s.nullable
    ensures s.typ == Some("array") && s.items.Some? && GetType(s.items.value, anonymousTypeName).Ok? ==>
              GetType(s, anonymousTypeName) == Ok("IReadOnlyList<" + GetType(s.items.value, anonymousTypeName).value + ">")
    ensures s.typ == Some("object") && s.additionalProperties.Some? && GetType(s.additionalProperties.value, anonymousTypeName).Ok? ==>
              GetType(s, anonymousTypeName) == Ok("IReadOnlyDictionary<string, " + GetType(s.additionalProperties.value, anonymousTypeName).value + ">")
  {
  }

  /** The errors for more than one `oneOf` entry and for an unknown type. */
  lemma TypeErrors(s: Schema, anonymousTypeName: Option<string>)
    requires s.reference.None?
    ensures s.typ.None? && |s.oneOf| > 1 ==> GetType(s, anonymousTypeName) == Err(OneOfError)
    ensures s.typ.Some? && s.typ.value !in {"boolean", "number", "integer", "string", "array", "object"} ==>
              GetType(s, anonymousTypeName) == Err(UnsupportedType(s.typ.value))
  {
  }

  /** `GetType(string mediaTypeKey, OpenApiMediaType, string?, bool)`. */
  function MediaType(key: string, schema: Schema, anonymousTypeName: Option<string>, returnValue: bool): (r: Result<string, Error>)
    ensures r.Ok? ==> key == "application/json" || key == "application/octet-stream"
    ensures key == "application/json" ==> r == GetType(schema, anonymousTypeName)
    ensures key != "application/json" && key != "application/octet-stream" ==> r == Err(UnsupportedMedia(key))
  {
    if key == "application/octet-stream" then Ok(if returnValue then "HttpResponseMessage" else "Stream")
    else if key == "application/json" then GetType(schema, anonymousTypeName)
    else Err(UnsupportedMedia(key))
  }

  /** A binary stream is a response message when returned and a stream when
      passed in; a JSON body's type does not depend on the direction. */
  lemma MediaDirection(key: string, schema: Schema, anonymousTypeName: Option<string>)
    ensures key == "application/octet-stream" ==>
              MediaType(key, schema, anonymousTypeName, true) == Ok("HttpResponseMessage")
              && MediaType(key, schema, anonymousTypeName, false) == Ok("Stream")
    ensures key != "application/octet-stream" ==>
              MediaType(key, schema, anonymousTypeName, true) == MediaType(key, schema, anonymousTypeName, false)
  {
  }

  /** `ApplyRequired`: an optional value's type is made nullable unless it
      already is. */
  function ApplyRequired(t: string, isRequired: bool): (r: string)
    ensures r == t || r == t + "?"
    ensures isRequired ==> r == t
    ensures EndsWith(r, "?") <==> EndsWith(t, "?") || !isRequired
  {
    if !EndsWith(t, "?") && !isRequired then t + "?" else t
  }

  /** Applying it twice is applying it once. */
  lemma ApplyRequiredIdempotent(t: string, isRequired: bool)
    ensures ApplyRequired(ApplyRequired(t, isRequired), isRequired) == ApplyRequired(t, isRequired)
  {
    var once := ApplyRequired(t, isRequired);
    if !isRequired {
      assert EndsWith(once, "?");
    }
  }

  /** `GetParameterToStringCode`: the C# expression that turns a parameter's
      value into the text sent to the server. */
  function ParameterToStringCode(name: string, schema: Schema): (r: Result<string, Error>)
    ensures r.Ok? <==> GetType(schema, None).Ok?
    ensures r.Ok? && GetType(schema, None).value == "string" ==> r.value == name
    ensures r.Ok? && GetType(schema, None).value != "string" ==> Contains(r.value, name)
  {
    var t :- GetType(schema, None);
    if t == "DateTime" then
      ContainsMiddle("", name, ".ToString(\"o\", CultureInfo.InvariantCulture)");
      Ok(name + ".ToString(\"o\", CultureInfo.InvariantCulture)")
    else if t == "string" then Ok(name)
    else
      ContainsMiddle("Convert.ToString(", name, ", CultureInfo.InvariantCulture)!");
      Ok("Convert.ToString(" + name + ", CultureInfo.InvariantCulture)!")
  }

  /** A date is written in the round-trip ("o") format, a string as it is, and
      everything else through the invariant culture. */
  lemma ToStringCodeCases(name: string, schema: Schema)
    requires GetType(schema, None).Ok?
    ensures GetType(schema, None).value == "DateTime" ==>
              ParameterToStringCode(name, schema) == Ok(name + ".ToString(\"o\", CultureInfo.InvariantCulture)")
    ensures GetType(schema, None).value !in {"DateTime", "string"} ==>
              ParameterToStringCode(name, schema) == Ok("Convert.ToString(" + name + ", CultureInfo.InvariantCulture)!")
  {
  }
}
