/**
 Dereferencing JSON Schema references (scripts/generate_js_operations.py, _resolve_ref and _deref). A reference is
 a JSON Pointer in a URI fragment (section 6 of RFC 6901); documents may chain references and may contain cycles.
 Python's None, which stands both for JSON null and for "nothing there", is Null.
 */
module SchemaRefs {
  import opened Chains
  import opened Counting
  import opened Strings
  import opened Wrappers

  datatype Json =
    | Null
    | Number(n: int)
    | Text(s: string)
    | Items(items: seq<Json>)
    | Object(entries: map<string, Json>)

  /** The string under "$ref", when the node is an object that has one. */
  function RefOf(node: Json): Option<string> {
    if node.Object? && "$ref" in node.entries && node.entries["$ref"].Text? then Some(node.entries["$ref"].s)
    else None
  }

  function Get(node: Json, key: string): Json
    requires node.Object?
  {
    if key in node.entries then node.entries[key] else Null
  }

  /** Follows the keys one by one; Null where a key is missing or the node on the way is no object. */
  function Walk(node: Json, keys: seq<string>): Json
    decreases |keys|
  {
    if keys == [] then node
    else if !node.Object? then Null
    else Walk(Get(node, keys[0]), keys[1..])
  }

  /** Every occurrence of the two characters becomes the one character, left to right. */
  function Replace(s: string, a: char, b: char, c: char): string {
    if |s| >= 2 && s[0] == a && s[1] == b then [c] + Replace(s[2..], a, b, c)
    else if s == "" then ""
    else [s[0]] + Replace(s[1..], a, b, c)
  }

  /** `~1` is decoded before `~0` (section 4 of RFC 6901). */
  function Unescape(raw: string): string {
    Replace(Replace(raw, '~', '1', '/'), '~', '0', '~')
  }

  predicate IsLocal(ref: string) {
    "#/" <= ref
  }

  function Unescaped(raws: seq<string>): (keys: seq<string>)
    ensures |keys| == |raws|
    ensures forall i :: 0 <= i < |raws| ==> keys[i] == Unescape(raws[i])
  {
    if raws == [] then [] else [Unescape(raws[0])] + Unescaped(raws[1..])
  }

  /** The keys that a local reference names. */
  function Keys(ref: string): seq<string>
    requires IsLocal(ref)
  {
    Unescaped(Split(ref[2..], '/'))
  }

  /** The node that a reference stands for, with no memory of the references followed before. */
  function Target(doc: map<string, Json>, ref: string): Json {
    if IsLocal(ref) then Walk(Object(doc), Keys(ref)) else Null
  }

  // ----- Resolution with a memory of the references already followed -----

  lemma {:induction false} WalkOn(node: Json, keys: seq<string>, key: string)
    ensures Walk(node, keys + [key]) ==
      if Walk(node, keys).Object? then Get(Walk(node, keys), key) else Null
    decreases |keys|
  {
    if keys != [] {
      assert (keys + [key])[1..] == keys[1..] + [key];
      if node.Object? {
        WalkOn(Get(node, keys[0]), keys[1..], key);
      }
    } else {
      assert [key][1..] == [];
    }
  }

  lemma {:induction false} WalkStuck(node: Json, keys: seq<string>, more: seq<string>)
    requires !Walk(node, keys).Object? && more != []
    ensures Walk(node, keys + more) == Null
    decreases |keys|
  {
    if keys != [] {
      assert (keys + more)[1..] == keys[1..] + more;
      if node.Object? {
        WalkStuck(Get(node, keys[0]), keys[1..], more);
      }
    } else {
      assert keys + more == more;
    }
  }

  method ResolveRef(doc: map<string, Json>, ref: string, seen: set<string>)
    returns (current: Json, nowSeen: set<string>)
    ensures !IsLocal(ref) || ref in seen ==> current == Null && nowSeen == seen
    ensures IsLocal(ref) && ref !in seen ==> current == Target(doc, ref) && nowSeen == seen + {ref}
  {
    if !IsLocal(ref) || ref in seen {
      return Null, seen;
    }
    nowSeen := seen + {ref};
    current := Object(doc);
    var raws := Split(ref[2..], '/');
    ghost var keys := Keys(ref);
    for i := 0 to |raws|
      invariant current == Walk(Object(doc), keys[..i])
    {
      var key := Replace(Replace(raws[i], '~', '1', '/'), '~', '0', '~');
      assert keys[..i + 1] == keys[..i] + [keys[i]];
      if !current.Object? {
        WalkStuck(Object(doc), keys[..i], keys[i..]);
        assert keys[..i] + keys[i..] == keys;
        return Null, nowSeen;
      }
      WalkOn(Object(doc), keys[..i], key);
      current := if key in current.entries then current.entries[key] else Null;
    }
    assert keys[..|raws|] == keys;
  }

  // ----- Termination: only strings of the document can be followed -----

  /** Every string value inside a node. */
  function Texts(node: Json): set<string> {
    match node
    case Text(s) => {s}
    case Items(items) => set i, s | 0 <= i < |items| && s in Texts(items[i]) :: s
    case Object(entries) => set key, s | key in entries && s in Texts(entries[key]) :: s
    case _ => {}
  }

  lemma {:induction false} WalkInside(node: Json, keys: seq<string>)
    ensures Texts(Walk(node, keys)) <= Texts(node)
    decreases |keys|
  {
    if keys != [] && node.Object? {
      WalkInside(Get(node, keys[0]), keys[1..]);
    }
  }

  lemma TargetInside(doc: map<string, Json>, ref: string)
    ensures Texts(Target(doc, ref)) <= Texts(Object(doc))
  {
    if IsLocal(ref) {
      WalkInside(Object(doc), Keys(ref));
    }
  }

  /** What is left to follow: the strings of the document and of the node, less the references followed. */
  ghost function Fresh(doc: map<string, Json>, node: Json, seen: set<string>): nat {
    |(Texts(Object(doc)) + Texts(node)) - seen|
  }

  lemma {:induction false} RefIsText(node: Json)
    requires RefOf(node).Some?
    ensures RefOf(node).value in Texts(node)
  {
    assert RefOf(node).value in Texts(node.entries["$ref"]);
  }

  lemma FollowingShrinks(doc: map<string, Json>, node: Json, seen: set<string>)
    requires RefOf(node).Some? && RefOf(node).value !in seen
    ensures Fresh(doc, Target(doc, RefOf(node).value), seen + {RefOf(node).value}) < Fresh(doc, node, seen)
  {
    hide Texts, Target, RefOf;
    var ref := RefOf(node).value;
    TargetInside(doc, ref);
    RefIsText(node);
    SubsetSize(
      (Texts(Object(doc)) + Texts(Target(doc, ref))) - (seen + {ref}), (Texts(Object(doc)) + Texts(node)) - seen);
  }

  /** Dereferencing with a memory of the references already followed: a repeated reference ends in Null. */
  ghost function Dereference(doc: map<string, Json>, node: Json, seen: set<string>): (result: Json)
    ensures RefOf(result).None?
    decreases Fresh(doc, node, seen)
  {
    match RefOf(node)
    case None => node
    case Some(ref) =>
      if !IsLocal(ref) || ref in seen then Null
      else
        FollowingShrinks(doc, node, seen);
        Dereference(doc, Target(doc, ref), seen + {ref})
  }

  method Deref(doc: map<string, Json>, node: Json, seen: set<string>) returns (result: Json)
    ensures result == Dereference(doc, node, seen)
    ensures RefOf(result).None?
    decreases Fresh(doc, node, seen), if RefOf(node).Some? then 1 else 0
  {
    if !node.Object? {
      return node;
    }
    if "$ref" in node.entries && node.entries["$ref"].Text? {
      var ref := node.entries["$ref"].s;
      var target, nowSeen := ResolveRef(doc, ref, seen);
      if IsLocal(ref) && ref !in seen {
        FollowingShrinks(doc, node, seen);
      } else {
        SubsetSize((Texts(Object(doc)) + Texts(Null)) - seen, (Texts(Object(doc)) + Texts(node)) - seen);
      }
      result := Deref(doc, target, nowSeen);
    } else {
      result := node;
    }
  }

  // ----- Unbounded dereferencing -----

  /** One reference followed, with no memory. */
  function Next(doc: map<string, Json>, node: Json): Option<Json> {
    match RefOf(node)
    case None => None
    case Some(ref) => Some(Target(doc, ref))
  }

  function Following(doc: map<string, Json>): Json -> Option<Json> {
    node => Next(doc, node)
  }

  /** The node after following at most this many references, with no memory. */
  function Chase(doc: map<string, Json>, node: Json, steps: nat): Json {
    After(Following(doc), node, steps)
  }

  /** Unbounded dereferencing ends after at most this many references. */
  predicate EndsBy(doc: map<string, Json>, node: Json, steps: nat) {
    RefOf(Chase(doc, node, steps)).None?
  }

  ghost predicate Ends(doc: map<string, Json>, node: Json) {
    exists steps: nat :: EndsBy(doc, node, steps)
  }

  /** A chain that ends after no fewer steps meets no reference twice. */
  lemma NoReferenceTwice(doc: map<string, Json>, node: Json, steps: nat, i: nat, j: nat)
    requires EndsBy(doc, node, steps) && forall k: nat :: k < steps ==> !EndsBy(doc, node, k)
    requires i < j < steps
    ensures RefOf(Chase(doc, node, i)) != RefOf(Chase(doc, node, j))
  {
    hide Target, IsLocal;
    var next := Following(doc);
    assert !EndsBy(doc, node, i) && !EndsBy(doc, node, steps - (j - i));
    if RefOf(Chase(doc, node, i)) == RefOf(Chase(doc, node, j)) {
      AfterSum(next, node, i, 1);
      AfterSum(next, node, j, 1);
      assert After(next, Chase(doc, node, i), 1) == After(next, Chase(doc, node, j), 1) by {
        assert next(Chase(doc, node, i)) == next(Chase(doc, node, j));
        var target := Target(doc, RefOf(Chase(doc, node, i)).value);
        assert After(next, target, 0) == target;
      }
      ShortCut(next, node, i + 1, j + 1, steps);
    }
  }

  /** The memory does not disturb a chain that ends. */
  lemma {:induction false} EndingChain(doc: map<string, Json>, node: Json, seen: set<string>, steps: nat)
    requires EndsBy(doc, node, steps)
    requires forall k: nat :: k < steps ==> !EndsBy(doc, node, k) && RefOf(Chase(doc, node, k)).value !in seen
    ensures Dereference(doc, node, seen) == Chase(doc, node, steps)
    decreases steps
  {
    if steps > 0 {
      assert !EndsBy(doc, node, 0);
      var ref := RefOf(node).value;
      assert Chase(doc, node, 0) == node;
      var next := Target(doc, ref);
      if IsLocal(ref) {
        forall k: nat | k < steps - 1
          ensures !EndsBy(doc, next, k) && RefOf(Chase(doc, next, k)).value !in seen + {ref}
        {
          assert Chase(doc, node, k + 1) == Chase(doc, next, k);
          assert !EndsBy(doc, node, k + 1);
          NoReferenceTwice(doc, node, steps, 0, k + 1);
        }
        EndingChain(doc, next, seen + {ref}, steps - 1);
      } else {
        assert Following(doc)(Null) == None;
        assert Chase(doc, node, steps) == Chase(doc, Null, steps - 1) == Null;
      }
    }
  }

  /** A chain that goes on for ever is cut off at Null. */
  lemma {:induction false} EndlessChain(doc: map<string, Json>, node: Json, seen: set<string>)
    requires !Ends(doc, node)
    ensures Dereference(doc, node, seen) == Null
    decreases Fresh(doc, node, seen)
  {
    assert !EndsBy(doc, node, 0);
    var ref := RefOf(node).value;
    if IsLocal(ref) && ref !in seen {
      var next := Target(doc, ref);
      forall k: nat ensures !EndsBy(doc, next, k) {
        assert !EndsBy(doc, node, k + 1);
      }
      FollowingShrinks(doc, node, seen);
      EndlessChain(doc, next, seen + {ref});
    }
  }

  /** On every document: dereferencing is unbounded dereferencing where that ends, and Null where it does not. */
  lemma {:induction false} DereferenceExact(doc: map<string, Json>, node: Json)
    ensures forall steps: nat :: EndsBy(doc, node, steps) ==> Dereference(doc, node, {}) == Chase(doc, node, steps)
    ensures !Ends(doc, node) ==> Dereference(doc, node, {}) == Null
  {
    forall steps: nat | EndsBy(doc, node, steps)
      ensures Dereference(doc, node, {}) == Chase(doc, node, steps)
    {
      var first := First(Following(doc), node, (at: Json) => RefOf(at).None?, steps);
      forall k: nat | k < first ensures !EndsBy(doc, node, k) {
        assert RefOf(After(Following(doc), node, k)).Some?;
      }
      EndingChain(doc, node, {}, first);
      AfterSum(Following(doc), node, first, steps - first);
    }
    if !Ends(doc, node) {
      EndlessChain(doc, node, {});
    }
  }

  // ----- Writing a reference and resolving it -----

  /** Section 3 of RFC 6901: `~` is written `~0` and `/` is written `~1`. */
  function Escape(key: string): string {
    if key == "" then ""
    else if key[0] == '~' then "~0" + Escape(key[1..])
    else if key[0] == '/' then "~1" + Escape(key[1..])
    else [key[0]] + Escape(key[1..])
  }

  function Join(keys: seq<string>): string
    requires keys != []
  {
    if |keys| == 1 then Escape(keys[0]) else Escape(keys[0]) + "/" + Join(keys[1..])
  }

  function Reference(keys: seq<string>): string
    requires keys != []
  {
    "#/" + Join(keys)
  }

  function EscapeTildes(key: string): string {
    if key == "" then ""
    else if key[0] == '~' then "~0" + EscapeTildes(key[1..])
    else [key[0]] + EscapeTildes(key[1..])
  }

  lemma {:induction false} SlashesFirst(key: string)
    ensures Replace(Escape(key), '~', '1', '/') == EscapeTildes(key)
  {
    if key != "" {
      SlashesFirst(key[1..]);
      var rest := Escape(key[1..]);
      if key[0] == '~' {
        assert ("~0" + rest)[1..] == "0" + rest;
        assert ("0" + rest)[1..] == rest;
      } else if key[0] == '/' {
        assert ("~1" + rest)[2..] == rest;
      } else {
        assert ([key[0]] + rest)[1..] == rest;
      }
    }
  }

  lemma {:induction false} TildesLast(key: string)
    ensures Replace(EscapeTildes(key), '~', '0', '~') == key
  {
    if key != "" {
      TildesLast(key[1..]);
      var rest := EscapeTildes(key[1..]);
      if key[0] == '~' {
        assert ("~0" + rest)[2..] == rest;
      } else {
        assert ([key[0]] + rest)[1..] == rest;
      }
    }
  }

  lemma {:induction false} UnescapeEscape(key: string)
    ensures Unescape(Escape(key)) == key
  {
    SlashesFirst(key);
    TildesLast(key);
  }

  lemma {:induction false} EscapedHasNoSlash(key: string)
    ensures '/' !in Escape(key)
  {
    if key != "" {
      EscapedHasNoSlash(key[1..]);
    }
  }

  lemma {:induction false} SplitPlain(s: string, more: string)
    requires '/' !in s
    ensures Split(s, '/') == [s]
    ensures Split(s + "/" + more, '/') == [s] + Split(more, '/')
  {
    var all := s + "/" + more;
    if s == "" {
      assert all[1..] == more;
    } else {
      SplitPlain(s[1..], more);
      assert [s[0]] + s[1..] == s;
      assert all[1..] == s[1..] + "/" + more;
    }
  }

  lemma {:induction false} SplitJoin(keys: seq<string>)
    requires keys != []
    ensures Unescaped(Split(Join(keys), '/')) == keys
  {
    UnescapeEscape(keys[0]);
    EscapedHasNoSlash(keys[0]);
    if |keys| == 1 {
      SplitPlain(Escape(keys[0]), "");
    } else {
      SplitPlain(Escape(keys[0]), Join(keys[1..]));
      SplitJoin(keys[1..]);
      var parts := Split(Join(keys), '/');
      assert parts[1..] == Split(Join(keys[1..]), '/');
    }
  }

  /** Writing a nonempty list of keys as a reference and resolving it walks exactly those keys. */
  lemma {:induction false} ReferenceWalksItsKeys(doc: map<string, Json>, keys: seq<string>)
    requires keys != []
    ensures Keys(Reference(keys)) == keys
    ensures Target(doc, Reference(keys)) == Walk(Object(doc), keys)
  {
    assert Reference(keys)[2..] == Join(keys);
    SplitJoin(keys);
  }

  function EscapeSlashes(key: string): string {
    if key == "" then ""
    else if key[0] == '/' then "~1" + EscapeSlashes(key[1..])
    else [key[0]] + EscapeSlashes(key[1..])
  }

  /** The order matters: decoding `~0` first turns every `~1` of the key itself into a slash, and changes nothing else. */
  lemma {:induction false} TildesFirst(key: string)
    ensures Replace(Escape(key), '~', '0', '~') == EscapeSlashes(key)
  {
    if key != "" {
      TildesFirst(key[1..]);
      var rest := Escape(key[1..]);
      if key[0] == '~' {
        assert ("~0" + rest)[2..] == rest;
      } else if key[0] == '/' {
        assert ("~1" + rest)[1..] == "1" + rest;
        assert ("1" + rest)[1..] == rest;
      } else {
        assert ([key[0]] + rest)[1..] == rest;
      }
    }
  }

  lemma {:induction false} SlashesLast(key: string)
    ensures Replace(EscapeSlashes(key), '~', '1', '/') == Replace(key, '~', '1', '/')
  {
    if key != "" {
      SlashesLast(key[1..]);
      var rest := EscapeSlashes(key[1..]);
      if key[0] == '/' {
        assert ("~1" + rest)[2..] == rest;
      } else if |key| >= 2 && key[0] == '~' && key[1] == '1' {
        SlashesLast(key[2..]);
        CodeIsKept(key);
        assert ("~1" + EscapeSlashes(key[2..]))[2..] == EscapeSlashes(key[2..]);
      } else {
        assert ([key[0]] + rest)[1..] == rest;
      }
    }
  }

  lemma {:induction false} CodeIsKept(key: string)
    requires |key| >= 2 && key[0] == '~' && key[1] == '1'
    ensures EscapeSlashes(key) == "~1" + EscapeSlashes(key[2..])
  {
    assert key[1..][1..] == key[2..];
    assert EscapeSlashes(key[1..]) == "1" + EscapeSlashes(key[2..]);
    assert "~" + ("1" + EscapeSlashes(key[2..])) == "~1" + EscapeSlashes(key[2..]);
  }

  /** The key itself contains `~1` at this position. */
  predicate SlashCodeAt(key: string, i: nat) {
    i + 1 < |key| && key[i] == '~' && key[i + 1] == '1'
  }

  lemma {:induction false} ReplaceFixes(key: string)
    ensures |Replace(key, '~', '1', '/')| <= |key|
    ensures Replace(key, '~', '1', '/') == key <==> forall i: nat :: !SlashCodeAt(key, i)
  {
    if SlashCodeAt(key, 0) {
      ReplaceFixes(key[2..]);
    } else if key != "" {
      ReplaceFixes(key[1..]);
      assert forall i: nat :: SlashCodeAt(key[1..], i) ==> SlashCodeAt(key, i + 1);
      assert forall i: nat :: i > 0 && SlashCodeAt(key, i) ==> SlashCodeAt(key[1..], i - 1);
      assert Replace(key, '~', '1', '/')[1..] == Replace(key[1..], '~', '1', '/');
      assert [key[0]] + key[1..] == key;
    }
  }

  /** Decoding in the other order would lose exactly the keys that contain `~1`. */
  lemma {:induction false} OtherOrderLosesKeys(key: string)
    ensures Replace(Replace(Escape(key), '~', '0', '~'), '~', '1', '/') == key <==>
      forall i: nat :: !SlashCodeAt(key, i)
  {
    TildesFirst(key);
    SlashesLast(key);
    ReplaceFixes(key);
  }
}
