/** `SchemaValidator` and the four declared schemas, over the part of Joi
    they use: `Joi.object({...})` with declared keys, `Joi.number()`,
    `Joi.string()` with an optional `.email()` rule, and `.required()`.
    Validation runs with `abortEarly: false` (every broken constraint is
    reported, keys in declaration order, nested objects depth-first) and
    `allowUnknown: true` (undeclared keys are ignored at every level).
    Whether a string is a valid email address is left to the caller's
    `isEmail` predicate. */
module Schema {
  import opened Wrappers
  import opened Text
  import opened Json

  /** A Joi type as the schemas use it. */
  datatype Type =
    | NumberType
    | StringType(email: bool)
    | ObjectType(keys: seq<Key>)

  /** One declared key of a `Joi.object`: its name, its type, and whether `.required()` was called. */
  datatype Key = Key(name: string, ty: Type, required: bool)

  datatype ViolationKind = Required | NotANumber | NotAString | EmptyString | InvalidEmail | NotAnObject

  /** One broken constraint, at the path of keys that leads to it. */
  datatype Violation = Violation(path: seq<string>, kind: ViolationKind)

  /** The message Joi gives a violation: the path label, then the rule's text. */
  function Message(v: Violation): string
  {
    var subject := if v.path == [] then "value" else Join(v.path, ".");
    "\"" + subject + "\" " +
    match v.kind
    case Required => "is required"
    case NotANumber => "must be a number"
    case NotAString => "must be a string"
    case EmptyString => "is not allowed to be empty"
    case InvalidEmail => "must be a valid email"
    case NotAnObject => "must be of type object"
  }

  // ---------------------------------------------------------------------------
  // Validation: collect every violation
  // ---------------------------------------------------------------------------

  /** All violations of `v` against `t`, in the order Joi reports them. */
  function Validate(v: Value, t: Type, path: seq<string>, isEmail: string -> bool): (r: seq<Violation>)
    ensures !t.ObjectType? ==> |r| <= 1
    decreases t
  {
    match t
    case NumberType => if v.Num? then [] else [Violation(path, NotANumber)]
    case StringType(email) =>
      if !v.Str? then [Violation(path, NotAString)]
      else if v.s == "" then [Violation(path, EmptyString)]
      else if email && !isEmail(v.s) then [Violation(path, InvalidEmail)]
      else []
    case ObjectType(keys) =>
      if !v.Obj? then [Violation(path, NotAnObject)] else ValidateKeys(v.fields, keys, path, isEmail)
  }

  /** The violations of each declared key in turn; keys the schema does not declare are never looked at. */
  function ValidateKeys(fields: map<string, Value>, keys: seq<Key>, path: seq<string>, isEmail: string -> bool): (r: seq<Violation>)
    ensures |r| >= MissingRequiredCount(fields, keys)
    decreases keys
  {
    if keys == [] then []
    else KeyViolations(fields, keys[0], path, isEmail) + ValidateKeys(fields, keys[1..], path, isEmail)
  }

  function KeyViolations(fields: map<string, Value>, key: Key, path: seq<string>, isEmail: string -> bool): (r: seq<Violation>)
    ensures key.name !in fields ==> (r == [] <==> !key.required)
    decreases key
  {
    if key.name in fields then Validate(fields[key.name], key.ty, path + [key.name], isEmail)
    else if key.required then [Violation(path + [key.name], Required)]
    else []
  }

  // ---------------------------------------------------------------------------
  // What it means to satisfy a schema, stated without collecting anything
  // ---------------------------------------------------------------------------

  predicate Conforms(v: Value, t: Type, isEmail: string -> bool)
    decreases t
  {
    match t
    case NumberType => v.Num?
    case StringType(email) => v.Str? && v.s != "" && (email ==> isEmail(v.s))
    case ObjectType(keys) => v.Obj? && forall i :: 0 <= i < |keys| ==> KeySatisfied(v.fields, keys[i], isEmail)
  }

  /** A declared key is fine when it is absent and optional, or present and conforming. */
  predicate KeySatisfied(fields: map<string, Value>, key: Key, isEmail: string -> bool)
    decreases key
  {
    if key.name in fields then Conforms(fields[key.name], key.ty, isEmail) else !key.required
  }

  /** No violation is reported exactly when the value satisfies the schema. */
  lemma {:induction false} ValidateEmptyIffConforms(v: Value, t: Type, path: seq<string>, isEmail: string -> bool)
    ensures Validate(v, t, path, isEmail) == [] <==> Conforms(v, t, isEmail)
    decreases t
  {
    if t.ObjectType? && v.Obj? {
      ValidateKeysEmptyIff(v.fields, t.keys, path, isEmail);
    }
  }

  lemma {:induction false} ValidateKeysEmptyIff(fields: map<string, Value>, keys: seq<Key>, path: seq<string>, isEmail: string -> bool)
    ensures ValidateKeys(fields, keys, path, isEmail) == [] <==> forall i :: 0 <= i < |keys| ==> KeySatisfied(fields, keys[i], isEmail)
    decreases keys
  {
    if keys != [] {
      var k := keys[0];
      if k.name in fields {
        ValidateEmptyIffConforms(fields[k.name], k.ty, path + [k.name], isEmail);
      }
      ValidateKeysEmptyIff(fields, keys[1..], path, isEmail);
      assert forall i :: 1 <= i < |keys| ==> keys[i] == keys[1..][i - 1];
    }
  }

  // ---------------------------------------------------------------------------
  // abortEarly: false — every broken constraint is reported
  // ---------------------------------------------------------------------------

  /** Every required key that is missing is reported, by its own path. */
  lemma {:induction false} MissingRequiredKeyReported(fields: map<string, Value>, keys: seq<Key>, path: seq<string>, isEmail: string -> bool, i: nat)
    requires i < |keys| && keys[i].required && keys[i].name !in fields
    ensures Violation(path + [keys[i].name], Required) in ValidateKeys(fields, keys, path, isEmail)
    decreases keys
  {
    if i > 0 {
      MissingRequiredKeyReported(fields, keys[1..], path, isEmail, i - 1);
    }
  }

  /** Every violation inside a present key's value is reported at the outer level too. */
  lemma {:induction false} NestedViolationReported(fields: map<string, Value>, keys: seq<Key>, path: seq<string>, isEmail: string -> bool, i: nat, x: Violation)
    requires i < |keys| && keys[i].name in fields
    requires x in Validate(fields[keys[i].name], keys[i].ty, path + [keys[i].name], isEmail)
    ensures x in ValidateKeys(fields, keys, path, isEmail)
    decreases keys
  {
    if i > 0 {
      NestedViolationReported(fields, keys[1..], path, isEmail, i - 1, x);
    }
  }

  /** Every violation lies under the path being validated. */
  lemma {:induction false} ViolationsUnderPath(v: Value, t: Type, path: seq<string>, isEmail: string -> bool)
    ensures forall x :: x in Validate(v, t, path, isEmail) ==> |path| <= |x.path| && x.path[..|path|] == path
    decreases t
  {
    if t.ObjectType? && v.Obj? {
      DeclaredKeysReported(v.fields, t.keys, path, isEmail);
      forall x | x in Validate(v, t, path, isEmail) ensures x.path[..|path|] == path {
      }
    }
  }

  /** An object reports violations only below its declared keys: the first
      step of every violation's path beyond the object is a declared key. */
  lemma {:induction false} DeclaredKeysReported(fields: map<string, Value>, keys: seq<Key>, path: seq<string>, isEmail: string -> bool)
    ensures forall x :: x in ValidateKeys(fields, keys, path, isEmail) ==>
              |path| < |x.path| && x.path[..|path|] == path && Declared(keys, x.path[|path|])
    decreases keys
  {
    if keys != [] {
      var k := keys[0];
      var first := KeyViolations(fields, k, path, isEmail);
      if k.name in fields {
        ViolationsUnderPath(fields[k.name], k.ty, path + [k.name], isEmail);
      }
      forall x | x in first ensures |path| < |x.path| && x.path[..|path|] == path && x.path[|path|] == k.name {
        assert x.path[..|path| + 1] == path + [k.name];
        assert x.path[..|path|] == x.path[..|path| + 1][..|path|];
        assert x.path[|path|] == x.path[..|path| + 1][|path|];
      }
      DeclaredKeysReported(fields, keys[1..], path, isEmail);
      forall n | Declared(keys[1..], n) ensures Declared(keys, n) {
        var i :| 0 <= i < |keys[1..]| && keys[1..][i].name == n;
        assert keys[i + 1].name == n;
      }
    }
  }

  /** The number of required keys missing from `fields`. */
  function MissingRequiredCount(fields: map<string, Value>, keys: seq<Key>): nat
  {
    if keys == [] then 0
    else (if keys[0].required && keys[0].name !in fields then 1 else 0) + MissingRequiredCount(fields, keys[1..])
  }

  /** Validating a concatenation of key lists concatenates the violations, in order. */
  lemma {:induction false} ValidateKeysAppend(fields: map<string, Value>, a: seq<Key>, b: seq<Key>, path: seq<string>, isEmail: string -> bool)
    ensures ValidateKeys(fields, a + b, path, isEmail) == ValidateKeys(fields, a, path, isEmail) + ValidateKeys(fields, b, path, isEmail)
  {
    if a == [] {
      assert a + b == b;
    } else {
      assert (a + b)[0] == a[0] && (a + b)[1..] == a[1..] + b;
      ValidateKeysAppend(fields, a[1..], b, path, isEmail);
    }
  }

  /** Optional keys that are absent report nothing. */
  lemma {:induction false} AbsentOptionalKeysSilent(fields: map<string, Value>, keys: seq<Key>, path: seq<string>, isEmail: string -> bool)
    requires forall i :: 0 <= i < |keys| ==> !keys[i].required && keys[i].name !in fields
    ensures ValidateKeys(fields, keys, path, isEmail) == []
  {
    if keys != [] {
      assert forall i :: 0 <= i < |keys[1..]| ==> keys[1..][i] == keys[i + 1];
      AbsentOptionalKeysSilent(fields, keys[1..], path, isEmail);
    }
  }

  // ---------------------------------------------------------------------------
  // allowUnknown: true — undeclared keys change nothing
  // ---------------------------------------------------------------------------

  predicate Declared(keys: seq<Key>, name: string)
  {
    exists i :: 0 <= i < |keys| && keys[i].name == name
  }

  /** Adding or replacing a key the schema does not declare leaves the violations as they were. */
  lemma {:induction false} UnknownKeyIgnored(fields: map<string, Value>, keys: seq<Key>, path: seq<string>, isEmail: string -> bool, name: string, extra: Value)
    requires !Declared(keys, name)
    ensures ValidateKeys(fields[name := extra], keys, path, isEmail) == ValidateKeys(fields, keys, path, isEmail)
    decreases keys
  {
    if keys != [] {
      assert keys[0].name != name;
      assert !Declared(keys[1..], name) by {
        forall i | 0 <= i < |keys[1..]| ensures keys[1..][i].name != name {
          assert keys[1..][i] == keys[i + 1];
        }
      }
      UnknownKeyIgnored(fields, keys[1..], path, isEmail, name, extra);
    }
  }

  // ---------------------------------------------------------------------------
  // SchemaValidator
  // ---------------------------------------------------------------------------

  function Messages(violations: seq<Violation>): (ms: seq<string>)
    ensures |ms| == |violations|
    ensures forall i :: 0 <= i < |violations| ==> ms[i] == Message(violations[i])
  {
    if violations == [] then [] else [Message(violations[0])] + Messages(violations[1..])
  }

  /** `validateResponse`: the data itself when it satisfies the schema, otherwise
      a failure that lists every violation's message, joined by ", ". */
  function ValidateResponse(data: Value, schema: Type, isEmail: string -> bool): (r: Result<Value>)
    ensures r.Ok? <==> Conforms(data, schema, isEmail)
    ensures r.Ok? ==> r.value == data
    ensures r.Err? ==> r.msg == "Schema validation failed: " + Join(Messages(Validate(data, schema, [], isEmail)), ", ")
  {
    ValidateEmptyIffConforms(data, schema, [], isEmail);
    var violations := Validate(data, schema, [], isEmail);
    if violations != [] then Err("Schema validation failed: " + Join(Messages(violations), ", "))
    else Ok(data)
  }

  /** `assertSchema`: `true` when validation succeeds, otherwise the very same failure. */
  function AssertSchema(data: Value, schema: Type, isEmail: string -> bool): (r: Result<bool>)
    ensures r.Ok? <==> Conforms(data, schema, isEmail)
    ensures r.Ok? ==> r.value
    ensures r.Err? ==> r.msg == ValidateResponse(data, schema, isEmail).msg
  {
    match ValidateResponse(data, schema, isEmail)
    case Ok(_) => Ok(true)
    case Err(msg) => Err(msg)
  }

  // ---------------------------------------------------------------------------
  // The declared schemas
  // ---------------------------------------------------------------------------

  function OptionalString(name: string): Key { Key(name, StringType(false), false) }

  function UserSchema(): (s: Type)
    ensures s.ObjectType?
  {
    var keys := [
      Key("id", NumberType, true),
      Key("name", StringType(false), true),
      Key("username", StringType(false), true),
      Key("email", StringType(true), true),
      Key("address", ObjectType([
        OptionalString("street"),
        OptionalString("suite"),
        OptionalString("city"),
        OptionalString("zipcode"),
        Key("geo", ObjectType([OptionalString("lat"), OptionalString("lng")]), false)
      ]), false),
      OptionalString("phone"),
      OptionalString("website"),
      Key("company", ObjectType([
        OptionalString("name"),
        OptionalString("catchPhrase"),
        OptionalString("bs")
      ]), false)
    ];
    ObjectType(keys)
  }

  function PostSchema(): (s: Type)
    ensures s.ObjectType?
  {
    var keys := [
      Key("userId", NumberType, true),
      Key("id", NumberType, true),
      Key("title", StringType(false), true),
      Key("body", StringType(false), true)
    ];
    ObjectType(keys)
  }

  function CommentSchema(): (s: Type)
    ensures s.ObjectType?
  {
    var keys := [
      Key("postId", NumberType, true),
      Key("id", NumberType, true),
      Key("name", StringType(false), true),
      Key("email", StringType(true), true),
      Key("body", StringType(false), true)
    ];
    ObjectType(keys)
  }

  function ErrorResponseSchema(): (s: Type)
    ensures s.ObjectType?
  {
    ObjectType([
      OptionalString("message"),
      OptionalString("error"),
      Key("statusCode", NumberType, false)
    ])
  }

  /** The names of a schema's required top-level keys. */
  function RequiredNames(keys: seq<Key>): set<string>
  {
    set i | 0 <= i < |keys| && keys[i].required :: keys[i].name
  }

  /** No key is declared twice in the same object. */
  predicate DistinctNames(keys: seq<Key>)
  {
    forall i, j :: 0 <= i < j < |keys| ==> keys[i].name != keys[j].name
  }

  /** The required keys of each declared schema, and no key declared twice. */
  lemma RequiredKeysOfSchemas()
    ensures RequiredNames(UserSchema().keys) == {"id", "name", "username", "email"}
    ensures RequiredNames(PostSchema().keys) == {"userId", "id", "title", "body"}
    ensures RequiredNames(CommentSchema().keys) == {"postId", "id", "name", "email", "body"}
    ensures RequiredNames(ErrorResponseSchema().keys) == {}
    ensures DistinctNames(UserSchema().keys) && DistinctNames(PostSchema().keys)
    ensures DistinctNames(CommentSchema().keys) && DistinctNames(ErrorResponseSchema().keys)
  {
    var u := UserSchema().keys;
    assert u[0].name == "id" && u[1].name == "name" && u[2].name == "username" && u[3].name == "email";
    var p := PostSchema().keys;
    assert p[0].name == "userId" && p[1].name == "id" && p[2].name == "title" && p[3].name == "body";
    var c := CommentSchema().keys;
    assert c[0].name == "postId" && c[1].name == "id" && c[2].name == "name" && c[3].name == "email" && c[4].name == "body";
  }

  // ---------------------------------------------------------------------------
  // Worked examples
  // ---------------------------------------------------------------------------

  function MinimalUser(): Value
  {
    Obj(map["id" := Num(1), "name" := Str("A"), "username" := Str("a"), "email" := Str("a@b.com")])
  }

  /** The user schema's four required keys, then its optional ones. */
  lemma UserSchemaShape()
    ensures UserSchema().keys == UserSchema().keys[..4] + UserSchema().keys[4..]
    ensures UserSchema().keys[..4] == [Key("id", NumberType, true), Key("name", StringType(false), true),
                                       Key("username", StringType(false), true), Key("email", StringType(true), true)]
    ensures forall i :: 4 <= i < |UserSchema().keys| ==> !UserSchema().keys[i].required
    ensures forall i :: 4 <= i < |UserSchema().keys| ==> UserSchema().keys[i].name in {"address", "phone", "website", "company"}
  {
  }

  /** The minimal user breaks no constraint of the user schema. */
  lemma MinimalUserViolatesNothing(isEmail: string -> bool)
    requires isEmail("a@b.com")
    ensures Validate(MinimalUser(), UserSchema(), [], isEmail) == []
  {
    var keys := UserSchema().keys;
    var m := MinimalUser().fields;
    UserSchemaShape();
    ValidateKeysAppend(m, keys[..4], keys[4..], [], isEmail);
    AbsentOptionalKeysSilent(m, keys[4..], [], isEmail);
    var head := keys[..4];
    assert ValidateKeys(m, head[3..], [], isEmail) == [] by {
      assert head[3..] == [Key("email", StringType(true), true)];
      assert KeyViolations(m, head[3], [], isEmail) == [];
    }
    assert ValidateKeys(m, head[2..], [], isEmail) == [] by {
      assert head[2..][1..] == head[3..];
      assert KeyViolations(m, head[2], [], isEmail) == [];
    }
    assert ValidateKeys(m, head[1..], [], isEmail) == [] by {
      assert head[1..][1..] == head[2..];
      assert KeyViolations(m, head[1], [], isEmail) == [];
    }
    assert ValidateKeys(m, head, [], isEmail) == [] by {
      assert KeyViolations(m, head[0], [], isEmail) == [];
    }
  }

  /** The four required fields alone satisfy the user schema, and so they do
      with any extra key the schema does not declare. */
  lemma MinimalUserPasses(isEmail: string -> bool, extraName: string, extra: Value)
    requires isEmail("a@b.com")
    requires !Declared(UserSchema().keys, extraName)
    ensures ValidateResponse(MinimalUser(), UserSchema(), isEmail) == Ok(MinimalUser())
    ensures ValidateResponse(Obj(MinimalUser().fields[extraName := extra]), UserSchema(), isEmail).Ok?
  {
    MinimalUserViolatesNothing(isEmail);
    NoViolationsIsOk(MinimalUser(), UserSchema(), isEmail);
    UnknownKeyKeepsPassing(MinimalUser().fields, UserSchema().keys, isEmail, extraName, extra);
  }

  /** A value with no violations is returned unchanged. */
  lemma NoViolationsIsOk(data: Value, schema: Type, isEmail: string -> bool)
    requires Validate(data, schema, [], isEmail) == []
    ensures ValidateResponse(data, schema, isEmail) == Ok(data)
  {
  }

  /** A passing object still passes once an undeclared key is added. */
  lemma UnknownKeyKeepsPassing(fields: map<string, Value>, keys: seq<Key>, isEmail: string -> bool, name: string, extra: Value)
    requires Validate(Obj(fields), ObjectType(keys), [], isEmail) == []
    requires !Declared(keys, name)
    ensures ValidateResponse(Obj(fields[name := extra]), ObjectType(keys), isEmail).Ok?
  {
    UnknownKeyIgnored(fields, keys, [], isEmail, name, extra);
    ValidateEmptyIffConforms(Obj(fields[name := extra]), ObjectType(keys), [], isEmail);
  }


  function IdAndNameOnly(): map<string, Value>
  {
    map["id" := Num(1), "name" := Str("A")]
  }

  /** The required part of the user schema against `{id: 1, name: "A"}`. */
  lemma IdAndNameRequiredViolations(isEmail: string -> bool)
    ensures ValidateKeys(IdAndNameOnly(), UserSchema().keys[..4], [], isEmail)
            == [Violation(["username"], Required), Violation(["email"], Required)]
  {
    var m := IdAndNameOnly();
    UserSchemaShape();
    var head := UserSchema().keys[..4];
    assert [] + ["email"] == ["email"] && [] + ["username"] == ["username"];
    assert ValidateKeys(m, head[3..], [], isEmail) == [Violation(["email"], Required)] by {
      assert head[3..] == [Key("email", StringType(true), true)];
      assert KeyViolations(m, head[3], [], isEmail) == [Violation(["email"], Required)];
    }
    assert ValidateKeys(m, head[2..], [], isEmail) == [Violation(["username"], Required), Violation(["email"], Required)] by {
      assert head[2..][1..] == head[3..];
      assert KeyViolations(m, head[2], [], isEmail) == [Violation(["username"], Required)];
    }
  }

  /** A user with only `id` and `name` is missing `username` and `email`:
      exactly those two violations, and no others. */
  lemma UserMissingTwoFields(isEmail: string -> bool)
    ensures Validate(Obj(IdAndNameOnly()), UserSchema(), [], isEmail)
            == [Violation(["username"], Required), Violation(["email"], Required)]
  {
    var keys := UserSchema().keys;
    var m := IdAndNameOnly();
    UserSchemaShape();
    ValidateKeysAppend(m, keys[..4], keys[4..], [], isEmail);
    AbsentOptionalKeysSilent(m, keys[4..], [], isEmail);
    IdAndNameRequiredViolations(isEmail);
  }

  /** ... and the failure message lists both, joined by ", ". */
  lemma UserMissingTwoFieldsMessage(isEmail: string -> bool)
    ensures ValidateResponse(Obj(IdAndNameOnly()), UserSchema(), isEmail)
            == Err("Schema validation failed: " + ("\"username\" is required" + ", " + "\"email\" is required"))
  {
    UserMissingTwoFields(isEmail);
    UsernameEmailRequiredMessage();
  }

  lemma UsernameEmailRequiredMessage()
    ensures Join(Messages([Violation(["username"], Required), Violation(["email"], Required)]), ", ")
            == "\"username\" is required" + ", " + "\"email\" is required"
  {
    var m0, m1 := "\"username\" is required", "\"email\" is required";
    assert Message(Violation(["username"], Required)) == m0 by { TopLevelRequiredMessage("username"); }
    assert Message(Violation(["email"], Required)) == m1 by { TopLevelRequiredMessage("email"); }
    var ms := Messages([Violation(["username"], Required), Violation(["email"], Required)]);
    assert ms == [m0, m1];
    assert Join(ms, ", ") == m0 + ", " + Join([m1], ", ");
  }

  /** A missing top-level key reads `"name" is required`. */
  lemma TopLevelRequiredMessage(name: string)
    ensures Message(Violation([name], Required)) == "\"" + name + "\" is required"
  {
    assert Join([name], ".") == name;
  }


  /** Every field of the error-response schema is optional: `{}` passes. */
  lemma EmptyErrorResponsePasses(isEmail: string -> bool)
    ensures ValidateResponse(Obj(map[]), ErrorResponseSchema(), isEmail) == Ok(Obj(map[]))
  {
    assert Validate(Obj(map[]), ErrorResponseSchema(), [], isEmail) == [];
  }
}
