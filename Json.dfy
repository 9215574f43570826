/** Parsed JSON payloads as JavaScript sees them, and the dotted-path
    resolver that the property assertions and the `toHaveProperty` matcher
    share: `current` starts at the payload and, for each segment of
    `path.split('.')`, must be truthy and own the segment as a key. */
module Json {
  import opened Wrappers
  import opened Text

  /** A parsed JSON value. Numbers are integers only. */
  datatype Value =
    | Null
    | Bool(b: bool)
    | Num(n: int)
    | Str(s: string)
    | Arr(items: seq<Value>)
    | Obj(fields: map<string, Value>)

  /** JavaScript truthiness: null, false, 0 and "" are falsy; every array and object is truthy. */
  predicate Truthy(v: Value)
  {
    match v
    case Null => false
    case Bool(b) => b
    case Num(n) => n != 0
    case Str(s) => s != ""
    case Arr(_) => true
    case Obj(_) => true
  }

  /** A key that names an array or string index: the shortest decimal numeral of a natural number. */
  function CanonicalIndex(key: string): (r: Option<nat>)
    ensures r.Some? ==> NatToString(r.value) == key
  {
    match ParseDecimal(key)
    case None => None
    case Some(i) => if NatToString(i) == key then Some(i) else None
  }

  /** Every numeral Dafny prints is read back as the same index, and no other key is. */
  lemma CanonicalIndexOfNumeral(i: nat, key: string)
    ensures CanonicalIndex(key) == Some(i) <==> key == NatToString(i)
  {
    NatToStringRoundTrip(i);
  }

  /** `v.hasOwnProperty(key) ? v[key] : (absent)`. Objects own their fields;
      arrays and strings own their indices and "length"; other values own nothing. */
  function OwnKey(v: Value, key: string): (r: Option<Value>)
    ensures v.Obj? ==> (r.Some? <==> key in v.fields)
    ensures v.Obj? && key in v.fields ==> r == Some(v.fields[key])
    ensures v.Null? || v.Bool? || v.Num? ==> r.None?
  {
    match v
    case Obj(m) => if key in m then Some(m[key]) else None
    case Arr(items) =>
      if key == "length" then Some(Num(|items|))
      else (match CanonicalIndex(key)
            case Some(i) => if i < |items| then Some(items[i]) else None
            case None => None)
    case Str(s) =>
      if key == "length" then Some(Num(|s|))
      else (match CanonicalIndex(key)
            case Some(i) => if i < |s| then Some(Str([s[i]])) else None
            case None => None)
    case _ => None
  }

  /** An array owns "length" and exactly the numerals of its indices, and
      each index's numeral gives that element. */
  lemma ArrayOwnKeys(items: seq<Value>, key: string)
    ensures OwnKey(Arr(items), key).Some? <==>
            key == "length" || exists i :: 0 <= i < |items| && key == NatToString(i)
    ensures key == "length" ==> OwnKey(Arr(items), key) == Some(Num(|items|))
    ensures forall i :: 0 <= i < |items| && key == NatToString(i) ==> OwnKey(Arr(items), key) == Some(items[i])
  {
    NumeralIsNotLength(key);
    if CanonicalIndex(key).Some? && CanonicalIndex(key).value < |items| {
      assert key == NatToString(CanonicalIndex(key).value);
    }
    forall i | 0 <= i < |items| && key == NatToString(i)
      ensures OwnKey(Arr(items), key) == Some(items[i])
    {
      CanonicalIndexOfNumeral(i, key);
    }
  }

  /** A string owns "length" and exactly the numerals of its indices, and
      each index's numeral gives the one-character string at that index. */
  lemma StringOwnKeys(s: string, key: string)
    ensures OwnKey(Str(s), key).Some? <==>
            key == "length" || exists i :: 0 <= i < |s| && key == NatToString(i)
    ensures key == "length" ==> OwnKey(Str(s), key) == Some(Num(|s|))
    ensures forall i :: 0 <= i < |s| && key == NatToString(i) ==> OwnKey(Str(s), key) == Some(Str([s[i]]))
  {
    NumeralIsNotLength(key);
    if CanonicalIndex(key).Some? && CanonicalIndex(key).value < |s| {
      assert key == NatToString(CanonicalIndex(key).value);
    }
    forall i | 0 <= i < |s| && key == NatToString(i)
      ensures OwnKey(Str(s), key) == Some(Str([s[i]]))
    {
      CanonicalIndexOfNumeral(i, key);
    }
  }

  /** "length" is not an index numeral. */
  lemma NumeralIsNotLength(key: string)
    ensures key == "length" ==> CanonicalIndex(key).None?
  {
    if key == "length" {
      assert !IsDigit(key[0]);
    }
  }

  /** The value at the end of the segments, or None when some step finds a
      falsy value or a missing own key. */
  function Resolve(v: Value, segs: seq<string>): Option<Value>
    decreases |segs|
  {
    if segs == [] then Some(v)
    else if !Truthy(v) then None
    else match OwnKey(v, segs[0])
      case None => None
      case Some(child) => Resolve(child, segs[1..])
  }

  /** What a dotted property path addresses in `data`. */
  function Lookup(data: Value, path: string): Option<Value>
  {
    Resolve(data, Split(path, '.'))
  }

  /** Step `i` of the traversal succeeds: the value reached by the first `i`
      segments is truthy and owns segment `i`. */
  predicate StepSucceeds(v: Value, segs: seq<string>, i: nat)
    requires i < |segs|
  {
    match Resolve(v, segs[..i])
    case None => false
    case Some(w) => Truthy(w) && OwnKey(w, segs[i]).Some?
  }

  /** Resolution over `p + q` is resolution over `p`, then over `q` from where it ended. */
  lemma {:induction false} ResolveAppend(v: Value, p: seq<string>, q: seq<string>)
    ensures Resolve(v, p + q) == match Resolve(v, p) case None => None case Some(w) => Resolve(w, q)
    decreases |p|
  {
    if p != [] {
      assert (p + q)[0] == p[0];
      assert (p + q)[1..] == p[1..] + q;
      if Truthy(v) && OwnKey(v, p[0]).Some? {
        ResolveAppend(OwnKey(v, p[0]).value, p[1..], q);
      }
    } else {
      assert p + q == q;
    }
  }

  /** Once a prefix fails, no later segment matters: the traversal stops there. */
  lemma FailedPrefixFails(v: Value, p: seq<string>, q: seq<string>)
    requires Resolve(v, p).None?
    ensures Resolve(v, p + q).None?
  {
    ResolveAppend(v, p, q);
  }

  /** A falsy intermediate value (null, 0, "", false) stops the traversal. */
  lemma FalsyIntermediateFails(v: Value, p: seq<string>, q: seq<string>)
    requires Resolve(v, p).Some? && !Truthy(Resolve(v, p).value)
    requires q != []
    ensures Resolve(v, p + q).None?
  {
    ResolveAppend(v, p, q);
  }

  /** A key whose value is null is still present: the path resolves to Null. */
  lemma NullTerminalIsPresent(v: Value, p: seq<string>, key: string)
    requires Resolve(v, p).Some? && Resolve(v, p).value.Obj?
    requires key in Resolve(v, p).value.fields && Resolve(v, p).value.fields[key] == Null
    ensures Resolve(v, p + [key]) == Some(Null)
  {
    ResolveAppend(v, p, [key]);
  }

  /** The traversal succeeds exactly when every step, in order, finds a truthy
      value that owns the next segment. */
  lemma {:induction false} ResolveIffEveryStep(v: Value, segs: seq<string>)
    ensures Resolve(v, segs).Some? <==> forall i :: 0 <= i < |segs| ==> StepSucceeds(v, segs, i)
  {
    if segs != [] {
      var n := |segs| - 1;
      var init := segs[..n];
      ResolveIffEveryStep(v, init);
      assert segs == init + [segs[n]];
      ResolveAppend(v, init, [segs[n]]);
      forall i | 0 <= i < n
        ensures StepSucceeds(v, segs, i) == StepSucceeds(v, init, i)
      {
        assert segs[..i] == init[..i];
      }
      if Resolve(v, segs).Some? {
        forall i | 0 <= i < |segs| ensures StepSucceeds(v, segs, i) {
          if i < n {
            assert StepSucceeds(v, init, i);
          }
        }
      } else if Resolve(v, init).Some? {
        assert !StepSucceeds(v, segs, n);
      } else {
        var i :| 0 <= i < n && !StepSucceeds(v, init, i);
        assert !StepSucceeds(v, segs, i);
      }
    }
  }

  // ---------------------------------------------------------------------------
  // Strict equality and string conversion, as used in failure messages
  // ---------------------------------------------------------------------------

  /** `a === b` where `b` is a value the caller built separately from `a`:
      primitives compare by value; arrays and objects are distinct references. */
  predicate StrictEquals(a: Value, b: Value): (r: bool)
    ensures r ==> a == b
    ensures r ==> !a.Arr? && !a.Obj?
    ensures !a.Arr? && !a.Obj? ==> (r <==> a == b)
  {
    match a
    case Null => b.Null?
    case Bool(x) => b.Bool? && b.b == x
    case Num(x) => b.Num? && b.n == x
    case Str(x) => b.Str? && b.s == x
    case Arr(_) => false
    case Obj(_) => false
  }

  /** `${v}` in a template literal. */
  function JsString(v: Value): (r: string)
    ensures v.Num? && v.n >= 0 ==> ParseDecimal(r) == Some(v.n)
    ensures v.Num? ==> |r| >= 1 && (r[0] == '-' <==> v.n < 0)
    ensures v.Arr? && |v.items| == 0 ==> r == ""
    decreases v
  {
    match v
    case Null => "null"
    case Bool(b) => if b then "true" else "false"
    case Num(n) =>
      if n >= 0 then NatToStringRoundTrip(n); IntToString(n) else IntToString(n)
    case Str(s) => s
    case Arr(items) => JoinElements(items)
    case Obj(_) => "[object Object]"
  }

  /** Different numbers print differently, so a value-mismatch message
      always shows which number was found. */
  lemma JsStringSeparatesNumbers(a: int, b: int)
    ensures JsString(Num(a)) == JsString(Num(b)) ==> a == b
  {
    if JsString(Num(a)) == JsString(Num(b)) {
      IntToStringInjective(a, b);
    }
  }

  /** `items.join(',')`: null elements print as the empty string. */
  function JoinElements(items: seq<Value>): string
    decreases items
  {
    if |items| == 0 then ""
    else
      var head := if items[0].Null? then "" else JsString(items[0]);
      if |items| == 1 then head else head + "," + JoinElements(items[1..])
  }

  // ---------------------------------------------------------------------------
  // Worked examples
  // ---------------------------------------------------------------------------

  /** {a: {b: {c: 5}}} */
  function NestedExample(): Value
  {
    Obj(map["a" := Obj(map["b" := Obj(map["c" := Num(5)])])])
  }

  /** "a.b.c" reaches 5; "a.x.c" stops at the missing "x". */
  lemma NestedExampleLookups()
    ensures Lookup(NestedExample(), "a.b.c") == Some(Num(5))
    ensures Lookup(NestedExample(), "a.x.c") == None
  {
    SplitJoin(["a", "b", "c"], '.');
    SplitJoin(["a", "x", "c"], '.');
    assert Join(["a", "b", "c"], ".") == "a.b.c";
    assert Join(["a", "x", "c"], ".") == "a.x.c";
  }
}
