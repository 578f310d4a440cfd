/**
 * The helpers of h5p-sort-paragraphs-util.js: swapping and shuffling the
 * children of a list, formatting a language tag, creating arrays and merging
 * option objects.
 *
 * A parent's list of children is a `seq` (or, where it is changed in place,
 * an `array`) of element identities; an element "has no parent" when it is
 * not in that list.  Elements are identified by numbers.
 */
module Util {
  import opened Wrappers
  import opened Js

  // ---------------------------------------------------------------------------
  // Child lists
  // ---------------------------------------------------------------------------

  /** `Array.prototype.indexOf`: the first position of `x` in `s`, or -1. */
  function IndexOf<T(==)>(s: seq<T>, x: T): (r: int)
    ensures -1 <= r < |s|
    ensures r == -1 <==> x !in s
    ensures 0 <= r ==> s[r] == x && x !in s[..r]
  {
    if |s| == 0 then -1
    else if s[0] == x then 0
    else
      var k := IndexOf(s[1..], x);
      if k == -1 then -1
      else
        assert s[..k + 1] == [s[0]] + s[1..][..k];
        k + 1
  }

  /** No element occurs twice (a DOM node has at most one place in its parent). */
  predicate Distinct<T(==)>(s: seq<T>) {
    forall i, j :: 0 <= i < j < |s| ==> s[i] != s[j]
  }

  lemma IndexOfDistinct<T>(s: seq<T>, k: int)
    requires Distinct(s) && 0 <= k < |s|
    ensures IndexOf(s, s[k]) == k
  {
    assert s[k] in s;
  }

  /** `x`, with `e1` and `e2` exchanged. */
  function Exchanged<T(==)>(x: T, e1: T, e2: T): T {
    if x == e1 then e2 else if x == e2 then e1 else x
  }

  /** The positions `i` and `j` of `s` exchanged. */
  function SwapAt<T>(s: seq<T>, i: nat, j: nat): (r: seq<T>)
    requires i < |s| && j < |s|
    ensures |r| == |s| && r[i] == s[j] && r[j] == s[i]
    ensures forall k :: 0 <= k < |s| && k != i && k != j ==> r[k] == s[k]
  {
    s[i := s[j]][j := s[i]]
  }

  lemma SwapAtSymmetric<T>(s: seq<T>, i: nat, j: nat)
    requires i < |s| && j < |s|
    ensures SwapAt(s, i, j) == SwapAt(s, j, i)
  {
  }

  lemma SwapAtMultiset<T>(s: seq<T>, i: nat, j: nat)
    requires i < |s| && j < |s|
    ensures multiset(SwapAt(s, i, j)) == multiset(s)
  {
    var t := s[i := s[j]];
    assert multiset(t) == multiset(s) - multiset{s[i]} + multiset{s[j]};
  }

  /**
   * swapDOMElements (util.js): the two elements exchange places in their
   * parent and every other child stays where it is; when either element has
   * no parent nothing happens.  The source throws when both are the same
   * element, and no caller does that.
   */
  function SwapElements<T(==)>(children: seq<T>, e1: T, e2: T): (r: seq<T>)
    requires Distinct(children) && e1 != e2
    ensures |r| == |children| && multiset(r) == multiset(children) && Distinct(r)
    ensures e1 !in children || e2 !in children ==> r == children
    ensures e1 in children && e2 in children ==>
      forall k :: 0 <= k < |r| ==> r[k] == Exchanged(children[k], e1, e2)
  {
    var i, j := IndexOf(children, e1), IndexOf(children, e2);
    if i < 0 || j < 0 then children
    else
      SwapAtMultiset(children, i, j);
      children[i := e2][j := e1]
  }

  /** Swapping the elements found at two positions is swapping the positions. */
  lemma SwapElementsAt<T>(s: seq<T>, i: nat, j: nat)
    requires Distinct(s) && i < |s| && j < |s| && i != j
    ensures SwapElements(s, s[i], s[j]) == SwapAt(s, i, j)
  {
    IndexOfDistinct(s, i);
    IndexOfDistinct(s, j);
  }

  /** swapDOMElements on a list that is changed in place. */
  method SwapDOMElements(children: array<nat>, e1: nat, e2: nat)
    requires Distinct(children[..]) && e1 != e2
    modifies children
    ensures children[..] == SwapElements(old(children[..]), e1, e2)
  {
    var i := IndexOf(children[..], e1);
    var j := IndexOf(children[..], e2);
    if i < 0 || j < 0 {
      return;
    }
    children[i], children[j] := e2, e1;
  }

  // ---------------------------------------------------------------------------
  // Shuffling (Fisher-Yates with the random draws supplied)
  // ---------------------------------------------------------------------------

  /**
   * The random draws of one shuffle of `n` elements: the loop runs for
   * i = n-1 down to 1, and the draw for i (number n-1-i) lies in [0, i].
   */
  predicate ValidChoices(n: nat, choices: seq<nat>) {
    && |choices| == (if n == 0 then 0 else n - 1)
    && forall k :: 0 <= k < |choices| ==> choices[k] < n - k
  }

  /** The iteration for `i` of the shuffle loop: swap elements i and j unless i == j. */
  function ShuffleStep<T(==)>(children: seq<T>, elements: seq<T>, choices: seq<nat>, i: nat): (r: seq<T>)
    requires Distinct(children) && Distinct(elements)
    requires 0 < i < |elements| && ValidChoices(|elements|, choices)
    ensures |r| == |children| && Distinct(r)
  {
    var j := choices[|elements| - 1 - i];
    if i != j then SwapElements(children, elements[i], elements[j]) else children
  }

  /** The child list after the loop's iterations for i, i-1, ..., 1. */
  function ShuffleSteps<T(==)>(children: seq<T>, elements: seq<T>, choices: seq<nat>, i: nat): (r: seq<T>)
    requires Distinct(children) && Distinct(elements)
    requires i < |elements| && ValidChoices(|elements|, choices)
    ensures |r| == |children| && Distinct(r)
    decreases i
  {
    if i == 0 then children
    else ShuffleSteps(ShuffleStep(children, elements, choices, i), elements, choices, i - 1)
  }

  /** shuffleDOMElements: the result of the whole loop. */
  function Shuffled<T(==)>(children: seq<T>, elements: seq<T>, choices: seq<nat>): (r: seq<T>)
    requires Distinct(children) && Distinct(elements) && ValidChoices(|elements|, choices)
    ensures |r| == |children| && Distinct(r)
    ensures |elements| <= 1 ==> r == children
  {
    if |elements| == 0 then children else ShuffleSteps(children, elements, choices, |elements| - 1)
  }

  lemma {:induction false} ShuffleStepsPermutes<T>(children: seq<T>, elements: seq<T>, choices: seq<nat>, i: nat)
    requires Distinct(children) && Distinct(elements)
    requires i < |elements| && ValidChoices(|elements|, choices)
    ensures multiset(ShuffleSteps(children, elements, choices, i)) == multiset(children)
    decreases i
  {
    if i > 0 {
      ShuffleStepsPermutes(ShuffleStep(children, elements, choices, i), elements, choices, i - 1);
    }
  }

  /** A shuffle only rearranges the children: it is a permutation of them. */
  lemma ShuffledIsPermutation<T>(children: seq<T>, elements: seq<T>, choices: seq<nat>)
    requires Distinct(children) && Distinct(elements) && ValidChoices(|elements|, choices)
    ensures multiset(Shuffled(children, elements, choices)) == multiset(children)
    ensures Distinct(Shuffled(children, elements, choices))
  {
    if |elements| > 0 {
      ShuffleStepsPermutes(children, elements, choices, |elements| - 1);
    }
  }

  /** One iteration of the shuffle loop, in place. */
  method ShuffleIteration(children: array<nat>, elements: seq<nat>, choices: seq<nat>, i: nat)
    requires Distinct(children[..]) && Distinct(elements)
    requires 0 < i < |elements| && ValidChoices(|elements|, choices)
    modifies children
    ensures children[..] == ShuffleStep(old(children[..]), elements, choices, i)
  {
    var j := choices[|elements| - 1 - i];
    if i != j {
      SwapDOMElements(children, elements[i], elements[j]);
    }
  }

  /** shuffleDOMElements, swapping in place for i from n-1 down to 1. */
  method ShuffleDOMElements(children: array<nat>, elements: seq<nat>, choices: seq<nat>)
    requires Distinct(children[..]) && Distinct(elements) && ValidChoices(|elements|, choices)
    modifies children
    ensures children[..] == Shuffled(old(children[..]), elements, choices)
  {
    if |elements| == 0 {
      return;
    }
    ghost var goal := Shuffled(children[..], elements, choices);
    var i: nat := |elements| - 1;
    while i > 0
      invariant i < |elements|
      invariant Distinct(children[..])
      invariant ShuffleSteps(children[..], elements, choices, i) == goal
    {
      ShuffleIteration(children, elements, choices, i);
      i := i - 1;
    }
  }

  // ---------------------------------------------------------------------------
  // Language tags (section 2.1.1 of RFC 5646: case conventions)
  // ---------------------------------------------------------------------------

  function LowerChar(c: char): char {
    if 'A' <= c <= 'Z' then (c as int + 32) as char else c
  }

  function UpperChar(c: char): char {
    if 'a' <= c <= 'z' then (c as int - 32) as char else c
  }

  /** `toLowerCase` on the ASCII letters. */
  function ToLower(s: string): string {
    seq(|s|, i requires 0 <= i < |s| => LowerChar(s[i]))
  }

  /** `toUpperCase` on the ASCII letters. */
  function ToUpper(s: string): string {
    seq(|s|, i requires 0 <= i < |s| => UpperChar(s[i]))
  }

  /** `Array.prototype.join(sep)` of strings. */
  function Join(segs: seq<string>, sep: char): string {
    if |segs| == 0 then ""
    else if |segs| == 1 then segs[0]
    else segs[0] + [sep] + Join(segs[1..], sep)
  }

  /** `String.prototype.split(sep)`: always at least one segment, none containing `sep`. */
  function Split(s: string, sep: char): (r: seq<string>)
    ensures |r| >= 1
    ensures forall i :: 0 <= i < |r| ==> sep !in r[i]
    ensures Join(r, sep) == s
  {
    if |s| == 0 then [""]
    else
      var rest := Split(s[1..], sep);
      if s[0] == sep then [""] + rest
      else
        assert [s[0]] + rest[0] + Join(rest, sep)[|rest[0]|..] == s by {
          if |rest| > 1 {
            assert Join(rest, sep) == rest[0] + [sep] + Join(rest[1..], sep);
          }
        }
        [[s[0]] + rest[0]] + rest[1..]
  }

  /** Splitting a joined list of separator-free segments gives the segments back. */
  lemma {:induction false} SplitJoin(segs: seq<string>, sep: char)
    requires |segs| >= 1
    requires forall i :: 0 <= i < |segs| ==> sep !in segs[i]
    ensures Split(Join(segs, sep), sep) == segs
    decreases |segs|, |segs[0]|
  {
    var s := Join(segs, sep);
    if |segs[0]| == 0 {
      if |segs| == 1 {
        assert s == "";
      } else {
        SplitJoin(segs[1..], sep);
        assert s == [sep] + Join(segs[1..], sep);
        assert s[0] == sep && s[1..] == Join(segs[1..], sep);
        assert segs == [""] + segs[1..];
      }
    } else {
      var c := segs[0][0];
      var shorter := segs[0 := segs[0][1..]];
      assert forall i :: 0 <= i < |shorter| ==> sep !in shorter[i] by {
        assert forall x :: x in segs[0][1..] ==> x in segs[0];
      }
      SplitJoin(shorter, sep);
      assert s == [c] + Join(shorter, sep) by {
        if |segs| > 1 {
          assert shorter[1..] == segs[1..];
        }
      }
      assert s[1..] == Join(shorter, sep);
      assert c != sep by {
        assert c in segs[0];
      }
      assert [c] + shorter[0] == segs[0];
      assert [[c] + shorter[0]] + shorter[1..] == segs;
    }
  }

  lemma CaseMapKeepsDash(s: string)
    ensures ('-' in s) <==> ('-' in ToLower(s))
    ensures ('-' in s) <==> ('-' in ToUpper(s))
  {
    if '-' in s {
      var i :| 0 <= i < |s| && s[i] == '-';
      assert ToLower(s)[i] == '-' && ToUpper(s)[i] == '-';
    }
    if '-' in ToLower(s) {
      var i :| 0 <= i < |s| && ToLower(s)[i] == '-';
      assert s[i] == '-';
    }
    if '-' in ToUpper(s) {
      var i :| 0 <= i < |s| && ToUpper(s)[i] == '-';
      assert s[i] == '-';
    }
  }

  /** The segments of a tag after formatting: first lower-cased, second upper-cased. */
  function FormattedSegments(segs: seq<string>): seq<string>
    requires |segs| >= 1
  {
    var first := segs[0 := ToLower(segs[0])];
    if |first| > 1 then first[1 := ToUpper(first[1])] else first
  }

  /**
   * formatLanguageCode: a string is split at '-', its first segment lower-cased
   * (the ISO 639 convention), its second upper-cased (ISO 3166-1) and the rest
   * left as they are; any other value is returned unchanged.
   */
  function FormatLanguageCode(code: Value): (r: Value)
    ensures !code.Str? ==> r == code
    ensures code.Str? ==> r.Str?
    ensures code.Str? ==>
      var before, after := Split(code.s, '-'), Split(r.s, '-');
      && |after| == |before|
      && after[0] == ToLower(before[0])
      && (|before| > 1 ==> after[1] == ToUpper(before[1]))
      && forall i :: 2 <= i < |before| ==> after[i] == before[i]
  {
    match code
    case Str(s) =>
      var segs := Split(s, '-');
      var formatted := FormattedSegments(segs);
      CaseMapKeepsDash(segs[0]);
      CaseMapKeepsDash(if |segs| > 1 then segs[1] else "");
      SplitJoin(formatted, '-');
      Str(Join(formatted, '-'))
    case _ => code
  }

  lemma CaseMapIdempotent(s: string)
    ensures ToLower(ToLower(s)) == ToLower(s)
    ensures ToUpper(ToUpper(s)) == ToUpper(s)
  {
  }

  /** Formatting a language tag twice is the same as formatting it once. */
  lemma FormatLanguageCodeIdempotent(code: Value)
    ensures FormatLanguageCode(FormatLanguageCode(code)) == FormatLanguageCode(code)
  {
    if code.Str? {
      var segs := Split(code.s, '-');
      var once := FormatLanguageCode(code);
      var twice := FormatLanguageCode(once);
      var a, b := Split(once.s, '-'), Split(twice.s, '-');
      CaseMapIdempotent(segs[0]);
      if |segs| > 1 { CaseMapIdempotent(segs[1]); }
      assert b == a;
      calc {
        twice.s;
        Join(Split(twice.s, '-'), '-');
        Join(Split(once.s, '-'), '-');
        once.s;
      }
    }
  }

  // ---------------------------------------------------------------------------
  // createArray
  // ---------------------------------------------------------------------------

  /** A slot of an array made by createArray: empty, or a nested array. */
  datatype Slot = Hole | Nested(items: seq<Slot>)

  /** `items` is an array with the dimensions `dims`, all innermost slots empty. */
  ghost predicate HasShape(items: seq<Slot>, dims: seq<int>)
    requires |dims| >= 1
    decreases |dims|
  {
    && |items| == dims[0]
    && forall k :: 0 <= k < |items| ==>
         if |dims| == 1 then items[k] == Hole
         else items[k].Nested? && HasShape(items[k].items, dims[1..])
  }

  /**
   * `new Array(n)` throws a RangeError for a negative length, and createArray
   * only recurses into the inner dimensions when the outer length is positive.
   */
  predicate CreatesWithoutError(dims: seq<int>)
    requires |dims| >= 1
    decreases |dims|
  {
    dims[0] >= 0 && (dims[0] == 0 || |dims| == 1 || CreatesWithoutError(dims[1..]))
  }

  /**
   * createArray(length, ...rest): an array of `length` slots (a falsy length
   * gives 0 slots), each slot a fresh createArray of the remaining dimensions.
   */
  method CreateArray(length: int, rest: seq<int>) returns (r: Result<seq<Slot>, Error>)
    ensures r.Success? <==> CreatesWithoutError([length] + rest)
    ensures r.Success? ==> HasShape(r.value, [length] + rest)
    decreases |rest|
  {
    var dims := [length] + rest;
    assert dims[1..] == rest;
    if length < 0 {
      return Failure(RangeError);
    }
    var arr := new Slot[length](_ => Hole);
    if |rest| > 0 {
      var i := length;
      while i != 0
        invariant 0 <= i <= length
        invariant forall k :: 0 <= k < length - i ==> arr[k].Nested? && HasShape(arr[k].items, rest)
        invariant forall k :: length - i <= k < length ==> arr[k] == Hole
        invariant i < length ==> CreatesWithoutError(rest)
      {
        i := i - 1;
        var inner := CreateArray(rest[0], rest[1..]);
        assert [rest[0]] + rest[1..] == rest;
        if inner.Failure? {
          return Failure(inner.error);
        }
        arr[length - 1 - i] := Nested(inner.value);
      }
    }
    return Success(arr[..]);
  }

  // ---------------------------------------------------------------------------
  // extend
  // ---------------------------------------------------------------------------

  /** `typeof v === 'object'`, which includes `null`. */
  predicate IsObjectType(v: Value) {
    TypeOf(v) == TObject
  }

  /** `target[key]` of an object's fields: `undefined` when the key is absent. */
  function Lookup(fields: map<string, Value>, key: string): Value {
    if key in fields then fields[key] else Undefined
  }

  /**
   * extend(target, source) for one argument, with `target` of type 'object':
   * each own key of `source` is merged recursively when both values are of
   * type 'object', and copied otherwise.  Writing a key into `null` throws a
   * TypeError (the result `None`).  A source that is not an object is taken
   * to have no own keys, so it leaves `target` as it is; for a string this
   * differs from `for...in`, which visits its character indices.
   */
  function Merge(target: Value, source: Value): (r: Option<Value>)
    requires IsObjectType(target)
    ensures !source.Obj? ==> r == Some(target)
    ensures r.None? ==> source.Obj? && |source.fields| > 0
    ensures r.Some? ==> IsObjectType(r.value)
    ensures target.Obj? && r.Some? ==> r.value.Obj? && target.fields.Keys <= r.value.fields.Keys
    decreases source, 2
  {
    match source
    case Obj(s) =>
      if target.Null? then
        if |s| == 0 then Some(target) else None
      else
        (match MergeFields(target.fields, s)
         case Some(m) => Some(Obj(m))
         case None => None)
    case _ => Some(target)
  }

  /** The new value of one key of `source`, or `None` if merging it throws. */
  function MergeKey(target: map<string, Value>, source: map<string, Value>, key: string): (r: Option<Value>)
    requires key in source
    ensures !(IsObjectType(Lookup(target, key)) && IsObjectType(source[key])) ==> r == Some(source[key])
    ensures r.None? ==> IsObjectType(Lookup(target, key)) && source[key].Obj?
    decreases Obj(source), 0
  {
    var t := Lookup(target, key);
    if IsObjectType(t) && IsObjectType(source[key]) then Merge(t, source[key]) else Some(source[key])
  }

  /** All own keys of `source` merged into `target`'s fields. */
  function MergeFields(target: map<string, Value>, source: map<string, Value>): (r: Option<map<string, Value>>)
    ensures r.None? ==> |source| > 0
    ensures r.Some? ==> r.value.Keys == target.Keys + source.Keys
    ensures r.Some? ==> forall k :: k in target && k !in source ==> r.value[k] == target[k]
    decreases Obj(source), 1
  {
    if exists k :: k in source && MergeKey(target, source, k).None? then None
    else Some(map k | k in target.Keys + source.Keys ::
                if k in source then MergeKey(target, source, k).value else target[k])
  }

  /** The arguments after the first, merged into it from left to right. */
  function ExtendAll(target: map<string, Value>, sources: seq<Value>): (r: Option<map<string, Value>>)
    ensures r.Some? ==> target.Keys <= r.value.Keys
    ensures (forall k :: 0 <= k < |sources| ==> !sources[k].Obj?) ==> r == Some(target)
    decreases |sources|
  {
    if |sources| == 0 then Some(target)
    else
      match Merge(Obj(target), sources[0])
      case None => None
      case Some(v) => ExtendAll(v.fields, sources[1..])
  }

  lemma MergeObjectIsObject(target: map<string, Value>, source: Value)
    ensures Merge(Obj(target), source).Some? ==> Merge(Obj(target), source).value.Obj?
  {
  }

  /** extend with one source: the cases of the target and the source. */
  method ExtendWith(target: Value, source: Value) returns (r: Option<Value>)
    requires IsObjectType(target)
    ensures r == Merge(target, source)
    decreases source, 2
  {
    if !source.Obj? {
      return Some(target);
    }
    if target.Null? {
      if |source.fields| == 0 { return Some(target); }
      return None;
    }
    var m := ExtendFields(target.fields, source.fields);
    if m.None? {
      return None;
    }
    return Some(Obj(m.value));
  }

  /**
   * extend's inner loop: the source's own keys, visited in any order, each
   * merged recursively or copied.
   */
  method ExtendFields(t: map<string, Value>, s: map<string, Value>) returns (r: Option<map<string, Value>>)
    ensures r == MergeFields(t, s)
    decreases Obj(s), 1
  {
    var cur := t;
    var todo := s.Keys;
    ghost var done: set<string> := {};
    while todo != {}
      invariant todo + done == s.Keys && todo !! done
      invariant cur.Keys == t.Keys + done
      invariant forall k :: k in done ==> MergeKey(t, s, k) == Some(cur[k])
      invariant forall k :: k in t && k !in done ==> cur[k] == t[k]
      decreases todo
    {
      var k :| k in todo;
      var v := ExtendKey(t, s, k);
      if v.None? {
        return None;
      }
      cur := cur[k := v.value];
      todo, done := todo - {k}, done + {k};
    }
    MergeFieldsFrom(t, s, cur);
    return Some(cur);
  }

  /** The body of extend's inner loop for one own key of the source. */
  method ExtendKey(t: map<string, Value>, s: map<string, Value>, k: string) returns (v: Option<Value>)
    requires k in s
    ensures v == MergeKey(t, s, k)
    decreases Obj(s), 0
  {
    var tv := Lookup(t, k);
    if IsObjectType(tv) && IsObjectType(s[k]) {
      v := ExtendWith(tv, s[k]);
    } else {
      v := Some(s[k]);
    }
  }

  /** A map that agrees with every key's merge is the merge of the fields. */
  lemma MergeFieldsFrom(t: map<string, Value>, s: map<string, Value>, m: map<string, Value>)
    requires m.Keys == t.Keys + s.Keys
    requires forall k :: k in s ==> MergeKey(t, s, k) == Some(m[k])
    requires forall k :: k in t && k !in s ==> m[k] == t[k]
    ensures MergeFields(t, s) == Some(m)
  {
    assert !exists k :: k in s && MergeKey(t, s, k).None?;
    var r := MergeFields(t, s).value;
    assert r.Keys == m.Keys;
    forall k | k in r ensures r[k] == m[k] {}
    assert r == m;
  }

  /** extend(target, ...sources): mutates and returns its first argument. */
  method Extend(target: map<string, Value>, sources: seq<Value>) returns (r: Option<map<string, Value>>)
    ensures r == ExtendAll(target, sources)
  {
    var cur := target;
    for i := 0 to |sources|
      invariant ExtendAll(cur, sources[i..]) == ExtendAll(target, sources)
    {
      var next := ExtendWith(Obj(cur), sources[i]);
      assert sources[i..][1..] == sources[i + 1..];
      if next.None? {
        return None;
      }
      MergeObjectIsObject(cur, sources[i]);
      cur := next.value.fields;
    }
    assert sources[|sources|..] == [];
    return Some(cur);
  }

  /**
   * What extend does to each key: a key that no source names keeps its value;
   * a key whose old and new values are not both objects takes the source's
   * value; no key is lost.
   */
  lemma MergeFieldsKeys(target: map<string, Value>, source: map<string, Value>)
    requires MergeFields(target, source).Some?
    ensures var m := MergeFields(target, source).value;
      && m.Keys == target.Keys + source.Keys
      && (forall k :: k in source ==> MergeKey(target, source, k) == Some(m[k]))
      && (forall k :: k in target && k !in source ==> m[k] == target[k])
      && (forall k :: k in source && !(IsObjectType(Lookup(target, k)) && IsObjectType(source[k])) ==>
            m[k] == source[k])
  {
  }

  /** The merge throws exactly when some key would be written into a `null`. */
  predicate NullClash(target: Value, source: Value)
    requires IsObjectType(target)
    decreases source, 1
  {
    source.Obj? && (
      if target.Null? then |source.fields| != 0
      else exists k :: k in source.fields && KeyClash(target.fields, source.fields, k))
  }

  predicate KeyClash(target: map<string, Value>, source: map<string, Value>, key: string)
    requires key in source
    decreases Obj(source), 0
  {
    var t := Lookup(target, key);
    IsObjectType(t) && IsObjectType(source[key]) && NullClash(t, source[key])
  }

  lemma {:induction false} MergeFailsIffNullClash(target: Value, source: Value)
    requires IsObjectType(target)
    ensures Merge(target, source).None? <==> NullClash(target, source)
    decreases source
  {
    if source.Obj? && target.Obj? {
      var t, s := target.fields, source.fields;
      forall k | k in s
        ensures MergeKey(t, s, k).None? <==> KeyClash(t, s, k)
      {
        var tv := Lookup(t, k);
        if IsObjectType(tv) && IsObjectType(s[k]) {
          MergeFailsIffNullClash(tv, s[k]);
        }
      }
    }
  }

  /** Merging an object into itself changes nothing. */
  lemma {:induction false} MergeSelf(v: Value)
    requires IsObjectType(v)
    ensures Merge(v, v) == Some(v)
    decreases v
  {
    if v.Obj? {
      var f := v.fields;
      forall k | k in f
        ensures MergeKey(f, f, k) == Some(f[k])
      {
        if IsObjectType(f[k]) {
          MergeSelf(f[k]);
        }
      }
      MergeFieldsFrom(f, f, f);
    }
  }

  /** Merging the same source a second time changes nothing. */
  lemma {:induction false} MergeIdempotent(target: Value, source: Value)
    requires IsObjectType(target) && Merge(target, source).Some?
    ensures IsObjectType(Merge(target, source).value)
    ensures Merge(Merge(target, source).value, source) == Merge(target, source)
    decreases source
  {
    if source.Obj? && target.Obj? {
      var t, s := target.fields, source.fields;
      var m := MergeFields(t, s).value;
      MergeFieldsKeys(t, s);
      forall k | k in s
        ensures MergeKey(m, s, k) == Some(m[k])
      {
        var tv := Lookup(t, k);
        assert Lookup(m, k) == m[k];
        if IsObjectType(tv) && IsObjectType(s[k]) {
          MergeIdempotent(tv, s[k]);
        } else if IsObjectType(s[k]) {
          MergeSelf(s[k]);
        }
      }
      MergeFieldsFrom(m, s, m);
    }
  }
}
