/** `TestDataFactory`: canonical example records merged with caller
    overrides. Each generator is `{ ...defaults, ...overrides }`: a shallow,
    top-level merge in which an override replaces the default value of its
    key outright (nested objects included). */
module TestDataFactory {
  import opened Json
  import Schema

  type Record = map<string, Value>

  /** `{ ...defaults, ...overrides }`. */
  function Merge(defaults: Record, overrides: Record): (r: Record)
    ensures r.Keys == defaults.Keys + overrides.Keys
    ensures forall k :: k in overrides ==> r[k] == overrides[k]
    ensures forall k :: k in defaults && k !in overrides ==> r[k] == defaults[k]
  {
    defaults + overrides
  }

  /** Merging a record that was itself produced from the same defaults changes nothing. */
  lemma MergeIdempotent(defaults: Record, overrides: Record)
    ensures Merge(defaults, Merge(defaults, overrides)) == Merge(defaults, overrides)
  {
    var once := Merge(defaults, overrides);
    assert Merge(defaults, once).Keys == once.Keys;
  }

  // ---------------------------------------------------------------------------
  // Defaults
  // ---------------------------------------------------------------------------

  /** The default user: every field of the user schema but `id`, with nested
      address (including geo) and company objects. */
  function DefaultUser(): (r: Record)
    ensures r.Keys == {"name", "username", "email", "address", "phone", "website", "company"}
    ensures "id" !in r
    ensures r["address"].Obj? && r["address"].fields.Keys == {"street", "suite", "city", "zipcode", "geo"}
    ensures r["company"].Obj? && r["company"].fields.Keys == {"name", "catchPhrase", "bs"}
  {
    map[
      "name" := Str("Test User"),
      "username" := Str("testuser"),
      "email" := Str("test@example.com"),
      "address" := Obj(map[
        "street" := Str("Test Street"),
        "suite" := Str("Apt. 1"),
        "city" := Str("Test City"),
        "zipcode" := Str("12345"),
        "geo" := Obj(map["lat" := Str("0.0"), "lng" := Str("0.0")])
      ]),
      "phone" := Str("1-234-567-8900"),
      "website" := Str("test.com"),
      "company" := Obj(map[
        "name" := Str("Test Company"),
        "catchPhrase" := Str("Testing made easy"),
        "bs" := Str("test business")
      ])
    ]
  }

  /** The default post: no `id`, and written by user 1. */
  function DefaultPost(): (r: Record)
    ensures r.Keys == {"title", "body", "userId"} && "id" !in r
    ensures r["userId"] == Num(1)
  {
    map["title" := Str("Test Post Title"), "body" := Str("This is a test post body"), "userId" := Num(1)]
  }

  /** The default comment: no `id`, and attached to post 1. */
  function DefaultComment(): (r: Record)
    ensures r.Keys == {"name", "email", "body", "postId"} && "id" !in r
    ensures r["postId"] == Num(1)
  {
    map[
      "name" := Str("Test Comment"),
      "email" := Str("comment@example.com"),
      "body" := Str("This is a test comment"),
      "postId" := Num(1)
    ]
  }

  // ---------------------------------------------------------------------------
  // Generators
  // ---------------------------------------------------------------------------

  function GenerateUser(overrides: Record): (r: Record)
    ensures r.Keys == {"name", "username", "email", "address", "phone", "website", "company"} + overrides.Keys
    ensures forall k :: k in overrides ==> r[k] == overrides[k]
    ensures forall k :: k in DefaultUser() && k !in overrides ==> r[k] == DefaultUser()[k]
    ensures "id" in r <==> "id" in overrides
  {
    Merge(DefaultUser(), overrides)
  }

  function GeneratePost(overrides: Record): (r: Record)
    ensures r.Keys == {"title", "body", "userId"} + overrides.Keys
    ensures forall k :: k in overrides ==> r[k] == overrides[k]
    ensures forall k :: k in DefaultPost() && k !in overrides ==> r[k] == DefaultPost()[k]
    ensures "userId" !in overrides ==> r["userId"] == Num(1)
  {
    Merge(DefaultPost(), overrides)
  }

  function GenerateComment(overrides: Record): (r: Record)
    ensures r.Keys == {"name", "email", "body", "postId"} + overrides.Keys
    ensures forall k :: k in overrides ==> r[k] == overrides[k]
    ensures forall k :: k in DefaultComment() && k !in overrides ==> r[k] == DefaultComment()[k]
    ensures "postId" !in overrides ==> r["postId"] == Num(1)
  {
    Merge(DefaultComment(), overrides)
  }

  /** A fixed string that is not an email address: it has no '@'. */
  function GenerateInvalidEmail(): (e: string)
    ensures e == "invalid-email"
    ensures '@' !in e
  {
    "invalid-email"
  }

  // ---------------------------------------------------------------------------
  // Properties of the merge
  // ---------------------------------------------------------------------------

  /** Without overrides the merge returns the defaults unchanged. */
  lemma MergeWithoutOverrides(defaults: Record)
    ensures Merge(defaults, map[]) == defaults
  {
    assert Merge(defaults, map[]).Keys == defaults.Keys;
  }

  /** Without overrides each generator returns its defaults, none of which has an `id`. */
  lemma NoOverridesGivesDefaults()
    ensures GenerateUser(map[]) == DefaultUser() && "id" !in GenerateUser(map[])
    ensures GeneratePost(map[]) == DefaultPost() && "id" !in GeneratePost(map[])
    ensures GenerateComment(map[]) == DefaultComment() && "id" !in GenerateComment(map[])
  {
    assert GenerateUser(map[]) == DefaultUser() by { MergeWithoutOverrides(DefaultUser()); }
    assert GeneratePost(map[]) == DefaultPost() by { MergeWithoutOverrides(DefaultPost()); }
    assert GenerateComment(map[]) == DefaultComment() by { MergeWithoutOverrides(DefaultComment()); }
  }

  /** Overriding one key of any record changes exactly that key. */
  lemma MergeSingle(defaults: Record, name: string, v: Value)
    ensures Merge(defaults, map[name := v]) == defaults[name := v]
  {
    assert Merge(defaults, map[name := v]).Keys == defaults[name := v].Keys;
  }

  /** Overriding one top-level key of the user changes exactly that key. */
  lemma SingleOverride(name: string, v: Value)
    ensures GenerateUser(map[name := v]) == DefaultUser()[name := v]
  {
    MergeSingle(DefaultUser(), name, v);
  }

  /** The merge is shallow: an overriding `address` object replaces the
      default one whole, so none of the default street, city or geo survives
      unless the override supplies it. */
  lemma ShallowAddressOverride(address: Record)
    ensures GenerateUser(map["address" := Obj(address)])["address"].fields == address
  {
  }

  /** `generatePost({title: "X"})` keeps `userId` 1 and `body` from the defaults. */
  lemma PostTitleOverride()
    ensures GeneratePost(map["title" := Str("X")]) ==
            map["title" := Str("X"), "body" := Str("This is a test post body"), "userId" := Num(1)]
  {
    var r := GeneratePost(map["title" := Str("X")]);
    assert r.Keys == {"title", "body", "userId"};
  }

  // ---------------------------------------------------------------------------
  // The defaults against the declared schemas
  // ---------------------------------------------------------------------------

  /** The default post lacks `id`, which the post schema requires: validating
      it reports exactly that one violation. */
  lemma DefaultPostMissesOnlyId(isEmail: string -> bool)
    ensures Schema.Validate(Obj(GeneratePost(map[])), Schema.PostSchema(), [], isEmail)
            == [Schema.Violation(["id"], Schema.Required)]
  {
    MergeWithoutOverrides(DefaultPost());
    var m := DefaultPost();
    var keys := Schema.PostSchema().keys;
    assert [] + ["id"] == ["id"];
    assert keys[3..] == [Schema.Key("body", Schema.StringType(false), true)];
    assert Schema.ValidateKeys(m, keys[3..], [], isEmail) == [];
    assert Schema.ValidateKeys(m, keys[2..], [], isEmail) == [] by {
      assert keys[2..][1..] == keys[3..];
    }
    assert Schema.ValidateKeys(m, keys[1..], [], isEmail) == [Schema.Violation(["id"], Schema.Required)] by {
      assert keys[1..][1..] == keys[2..];
      assert Schema.KeyViolations(m, keys[1], [], isEmail) == [Schema.Violation(["id"], Schema.Required)];
    }
  }

  /** Once an `id` is supplied, the generated post satisfies the post schema. */
  lemma PostWithIdConforms(id: int, isEmail: string -> bool)
    ensures Schema.ValidateResponse(Obj(GeneratePost(map["id" := Num(id)])), Schema.PostSchema(), isEmail).Ok?
  {
    var m := GeneratePost(map["id" := Num(id)]);
    var keys := Schema.PostSchema().keys;
    forall i | 0 <= i < |keys| ensures Schema.KeySatisfied(m, keys[i], isEmail) {
    }
    Schema.ValidateKeysEmptyIff(m, keys, [], isEmail);
    Schema.ValidateEmptyIffConforms(Obj(m), Schema.PostSchema(), [], isEmail);
  }

  /** The default comment likewise lacks only `id` under the comment schema. */
  lemma DefaultCommentMissesOnlyId(isEmail: string -> bool)
    requires isEmail("comment@example.com")
    ensures Schema.Validate(Obj(GenerateComment(map[])), Schema.CommentSchema(), [], isEmail)
            == [Schema.Violation(["id"], Schema.Required)]
  {
    MergeWithoutOverrides(DefaultComment());
    var m := DefaultComment();
    var keys := Schema.CommentSchema().keys;
    assert [] + ["id"] == ["id"];
    assert keys[4..] == [Schema.Key("body", Schema.StringType(false), true)];
    assert Schema.ValidateKeys(m, keys[4..], [], isEmail) == [];
    assert Schema.ValidateKeys(m, keys[3..], [], isEmail) == [] by {
      assert keys[3..][1..] == keys[4..];
      assert Schema.KeyViolations(m, keys[3], [], isEmail) == [];
    }
    assert Schema.ValidateKeys(m, keys[2..], [], isEmail) == [] by {
      assert keys[2..][1..] == keys[3..];
    }
    assert Schema.ValidateKeys(m, keys[1..], [], isEmail) == [Schema.Violation(["id"], Schema.Required)] by {
      assert keys[1..][1..] == keys[2..];
      assert Schema.KeyViolations(m, keys[1], [], isEmail) == [Schema.Violation(["id"], Schema.Required)];
    }
  }
}
