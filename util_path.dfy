/**
 * `getOrNull` of lib/util/index.js: walk a dot-separated property path down
 * a value, yielding null as soon as the value reached so far is falsy.
 */
module ObjectPath {

  /** JavaScript values, as far as property lookup and truthiness need them. */
  datatype JsValue =
    | Undefined
    | Null
    | Bool(b: bool)
    | Num(n: int)
    | Str(s: string)
    | Object(props: map<string, JsValue>)

  predicate Falsy(v: JsValue)
  {
    v == Undefined || v == Null || v == Bool(false) || v == Num(0) || v == Str("")
  }

  /** `v[key]`: an object's own property, otherwise `undefined`. */
  function Get(v: JsValue, key: string): JsValue
  {
    if v.Object? && key in v.props then v.props[key] else Undefined
  }

  /** `s.split(c)` for a one-character separator. */
  function Split(s: string, c: char): (r: seq<string>)
    ensures |r| >= 1
    ensures forall i :: 0 <= i < |r| ==> c !in r[i]
  {
    if s == [] then [""]
    else
      var rest := Split(s[1..], c);
      if s[0] == c then [""] + rest else [[s[0]] + rest[0]] + rest[1..]
  }

  /** `parts.join(c)`. */
  function Join(parts: seq<string>, c: char): string
    requires |parts| >= 1
  {
    if |parts| == 1 then parts[0] else parts[0] + [c] + Join(parts[1..], c)
  }

  lemma {:induction false} JoinConsHead(x: char, parts: seq<string>, c: char)
    requires |parts| >= 1
    ensures Join([[x] + parts[0]] + parts[1..], c) == [x] + Join(parts, c)
  {
    var ps := [[x] + parts[0]] + parts[1..];
    if |parts| > 1 {
      assert ps[1..] == parts[1..];
    }
  }

  /** Splitting, then joining with the same separator, gives back the text. */
  lemma {:induction false} JoinSplit(s: string, c: char)
    ensures Join(Split(s, c), c) == s
  {
    if s != [] {
      var rest := Split(s[1..], c);
      JoinSplit(s[1..], c);
      if s[0] == c {
        assert ([""] + rest)[1..] == rest;
      } else {
        JoinConsHead(s[0], rest, c);
      }
    }
  }

  /** Joining separator-free parts, then splitting, gives back the parts. */
  lemma {:induction false} SplitJoin(parts: seq<string>, c: char)
    requires |parts| >= 1
    requires forall i :: 0 <= i < |parts| ==> c !in parts[i]
    ensures Split(Join(parts, c), c) == parts
  {
    if |parts| == 1 {
      SplitNoSeparator(parts[0], c);
    } else {
      SplitJoin(parts[1..], c);
      SplitPrefix(parts[0], Join(parts[1..], c), c);
    }
  }

  lemma {:induction false} SplitNoSeparator(s: string, c: char)
    requires c !in s
    ensures Split(s, c) == [s]
  {
    if s != [] {
      SplitNoSeparator(s[1..], c);
      assert [s[0]] + s[1..] == s;
    }
  }

  lemma {:induction false} SplitPrefix(head: string, tail: string, c: char)
    requires c !in head
    ensures Split(head + [c] + tail, c) == [head] + Split(tail, c)
  {
    if head == [] {
      assert head + [c] + tail == [c] + tail;
    } else {
      var s := head + [c] + tail;
      assert s[0] == head[0] && s[1..] == head[1..] + [c] + tail;
      SplitPrefix(head[1..], tail, c);
      var rest := Split(s[1..], c);
      assert rest[0] == head[1..] && rest[1..] == Split(tail, c);
      assert [head[0]] + head[1..] == head;
    }
  }

  /** One reduction step of `getOrNull`. */
  function Step(v: JsValue, key: string): JsValue
  {
    if Falsy(v) then Null else Get(v, key)
  }

  /** The `reduce` of `getOrNull` over the path's segments. */
  function Walk(v: JsValue, steps: seq<string>): JsValue
    decreases steps
  {
    if steps == [] then v else Walk(Step(v, steps[0]), steps[1..])
  }

  /**
   * `getOrNull(obj, path)`: the nested lookup along the path's segments when
   * every value met before a segment is truthy, and null otherwise.
   */
  function GetOrNull(obj: JsValue, path: string): (r: JsValue)
    ensures TruthyAlong(obj, Split(path, '.')) ==> r == Lookup(obj, Split(path, '.'))
    ensures !TruthyAlong(obj, Split(path, '.')) ==> r == Null
  {
    WalkCharacterization(obj, Split(path, '.'));
    Walk(obj, Split(path, '.'))
  }

  /** The plain nested lookup `v[s0][s1]...`, with no falsy check. */
  function Lookup(v: JsValue, steps: seq<string>): JsValue
    decreases steps
  {
    if steps == [] then v else Lookup(Get(v, steps[0]), steps[1..])
  }

  /** Every value met before a step (the start and each intermediate one) is truthy. */
  predicate TruthyAlong(v: JsValue, steps: seq<string>)
    decreases steps
  {
    steps == [] || (!Falsy(v) && TruthyAlong(Get(v, steps[0]), steps[1..]))
  }

  /** Walking the concatenation of two paths is walking one, then the other. */
  lemma {:induction false} WalkAppend(v: JsValue, a: seq<string>, b: seq<string>)
    ensures Walk(v, a + b) == Walk(Walk(v, a), b)
    decreases a
  {
    if a != [] {
      assert (a + b)[0] == a[0] && (a + b)[1..] == a[1..] + b;
      WalkAppend(Step(v, a[0]), a[1..], b);
    } else {
      assert a + b == b;
    }
  }

  /** Once a falsy value is met, every further step yields null. */
  lemma {:induction false} WalkFromFalsy(v: JsValue, steps: seq<string>)
    requires Falsy(v) && steps != []
    ensures Walk(v, steps) == Null
    decreases steps
  {
    if |steps| > 1 {
      WalkFromFalsy(Null, steps[1..]);
    }
  }

  /**
   * `getOrNull` reaches the end of the path exactly when every value met
   * before a step is truthy, and then returns the nested lookup, falsy or
   * not; otherwise it returns null.
   */
  lemma {:induction false} WalkCharacterization(v: JsValue, steps: seq<string>)
    ensures TruthyAlong(v, steps) ==> Walk(v, steps) == Lookup(v, steps)
    ensures !TruthyAlong(v, steps) ==> Walk(v, steps) == Null
    decreases steps
  {
    if steps != [] {
      if Falsy(v) {
        WalkFromFalsy(v, steps);
      } else {
        WalkCharacterization(Get(v, steps[0]), steps[1..]);
      }
    }
  }

  /** A falsy object gives null whatever the path, since a path has at least one segment. */
  lemma GetOrNullOfFalsy(obj: JsValue, path: string)
    requires Falsy(obj)
    ensures GetOrNull(obj, path) == Null
  {
    WalkFromFalsy(obj, Split(path, '.'));
  }

  /** A dotted path walks its segments one after another. */
  lemma GetOrNullDotted(obj: JsValue, head: string, path: string)
    requires '.' !in head
    ensures GetOrNull(obj, head + "." + path) == GetOrNull(Step(obj, head), path)
  {
    SplitPrefix(head, path, '.');
    assert head + "." + path == head + ['.'] + path;
    var rest := Split(path, '.');
    assert ([head] + rest)[0] == head && ([head] + rest)[1..] == rest;
  }
}
