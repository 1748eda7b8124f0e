// JsonContainer: looking up and setting values along a path of keys.

module JsonContainer {
  datatype Json =
    | Null
    | Bool(b: bool)
    | Int(n: int)
    | Double(r: real)
    | String(s: string)
    | Array(items: seq<Json>)
    | Object(members: seq<Member>)

  /** Members are an ordered list; parsed text may repeat a name, and the first one counts. */
  datatype Member = Member(name: string, value: Json)

  datatype Error = KeyError | TypeError | IndexError

  datatype Result<+T> = Ok(value: T) | Err(error: Error)

  type Path = seq<string>

  // ----- Members -----

  /** A key reaches the document as a C string: it ends at its first NUL. */
  function CString(key: string): string {
    if key == [] || key[0] == '\0' then [] else [key[0]] + CString(key[1..])
  }

  /** A key without a NUL is all of it, and nothing from its first NUL on is part of one. */
  lemma {:induction false} KeysEndAtNul(key: string, rest: string)
    requires '\0' !in key
    ensures CString(key) == key && CString(key + "\0" + rest) == key
  {
    if key == [] {
      assert key + "\0" + rest == "\0" + rest;
    } else {
      KeysEndAtNul(key[1..], rest);
      assert (key + "\0" + rest)[1..] == key[1..] + "\0" + rest;
    }
  }

  /** The index of the first member with this name, the number of members when there is none. */
  function IndexOf(members: seq<Member>, name: string): (i: nat)
    ensures i <= |members|
    ensures i < |members| ==> members[i].name == name
    ensures forall j :: 0 <= j < i ==> members[j].name != name
  {
    if members == [] || members[0].name == name then 0 else IndexOf(members[1..], name) + 1
  }

  predicate HasKey(v: Json, key: string) {
    v.Object? && IndexOf(v.members, CString(key)) < |v.members|
  }

  function Get(v: Json, key: string): Json
    requires HasKey(v, key)
  {
    v.members[IndexOf(v.members, CString(key))].value
  }

  /** The object with the value of its first member of this name exchanged. */
  function Put(v: Json, key: string, x: Json): Json
    requires HasKey(v, key)
  {
    var i := IndexOf(v.members, CString(key));
    Object(v.members[i := Member(CString(key), x)])
  }

  /** AddMember: the new member goes last. */
  function Add(v: Json, key: string, x: Json): Json
    requires v.Object?
  {
    Object(v.members + [Member(CString(key), x)])
  }

  lemma IndexOfIs(members: seq<Member>, name: string, i: nat)
    requires i <= |members| && (i < |members| ==> members[i].name == name)
    requires forall j :: 0 <= j < i ==> members[j].name != name
    ensures IndexOf(members, name) == i
  {
  }

  lemma PutLaws(v: Json, key: string, x: Json, other: string)
    requires HasKey(v, key)
    ensures HasKey(Put(v, key, x), key) && Get(Put(v, key, x), key) == x
    ensures HasKey(Put(v, key, x), other) <==> HasKey(v, other)
    ensures HasKey(v, other) && CString(other) != CString(key) ==> Get(Put(v, key, x), other) == Get(v, other)
  {
    var w := Put(v, key, x);
    var i, j := IndexOf(v.members, CString(key)), IndexOf(v.members, CString(other));
    assert forall k :: 0 <= k < |v.members| ==> w.members[k].name == v.members[k].name;
    IndexOfIs(w.members, CString(key), i);
    IndexOfIs(w.members, CString(other), j);
  }

  lemma AddLaws(v: Json, key: string, x: Json, other: string)
    requires v.Object? && !HasKey(v, key)
    ensures HasKey(Add(v, key, x), key) && Get(Add(v, key, x), key) == x
    ensures CString(other) != CString(key) ==> (HasKey(Add(v, key, x), other) <==> HasKey(v, other))
    ensures HasKey(v, other) ==> HasKey(Add(v, key, x), other) && Get(Add(v, key, x), other) == Get(v, other)
  {
    var w := Add(v, key, x);
    var j := IndexOf(v.members, CString(other));
    IndexOfIs(w.members, CString(key), |v.members|);
    if CString(other) != CString(key) {
      IndexOfIs(w.members, CString(other), if j < |v.members| then j else |w.members|);
    }
  }

  // ----- Paths: the reference -----

  function Lookup(v: Json, path: Path): Result<Json>
    decreases path
  {
    if path == [] then Ok(v)
    else if !v.Object? then Err(TypeError)
    else if !HasKey(v, path[0]) then Err(KeyError)
    else Lookup(Get(v, path[0]), path[1..])
  }

  /** The document with x at the path; objects missing on the way are created. */
  function SetAt(v: Json, path: Path, x: Json): Result<Json>
    decreases path
  {
    if path == [] then Ok(x)
    else if !v.Object? then Err(KeyError)
    else if HasKey(v, path[0]) then
      match SetAt(Get(v, path[0]), path[1..], x)
      case Ok(w) => Ok(Put(v, path[0], w))
      case Err(e) => Err(e)
    else
      match SetAt(Object([]), path[1..], x)
      case Ok(w) => Ok(Add(v, path[0], w))
      case Err(e) => Err(e)
  }

  /** The document with x in place of the value that the path leads to. */
  function Replace(v: Json, path: Path, x: Json): Json
    requires Lookup(v, path).Ok?
    decreases path
  {
    if path == [] then x else Put(v, path[0], Replace(Get(v, path[0]), path[1..], x))
  }

  // ----- The container -----

  class JsonContainer {
    var root: Json

    constructor (root: Json)
      ensures this.root == root
    {
      this.root := root;
    }

    /** set with a path: walks down from the root, creating what is missing, and stores the value. The
        pointer into the document is the path walked so far. */
    method Set(keys: Path, value: Json) returns (r: Result<()>)
      modifies this
      ensures match SetAt(old(root), keys, value)
              case Ok(v) => r == Ok(()) && root == v
              case Err(e) => r == Err(e) && root == old(root)
    {
      ghost var was := root;
      for i := 0 to |keys|
        invariant Walking(was, root, keys, i, value)
      {
        var jval := Lookup(root, keys[..i]).value;
        if !jval.Object? {
          return Err(KeyError);
        }
        WalkOn(was, root, keys, i, value);
        if !HasKey(jval, keys[i]) {
          root := Replace(root, keys[..i], Add(jval, keys[i], Object([])));
        }
      }
      assert keys[..|keys|] == keys && keys[|keys|..] == [];
      root := Replace(root, keys, value);
      return Ok(());
    }

    /** set with a single key. */
    method SetKey(key: string, value: Json) returns (r: Result<()>)
      modifies this
      ensures match SetAt(old(root), [key], value)
              case Ok(v) => r == Ok(()) && root == v
              case Err(e) => r == Err(e) && root == old(root)
    {
      assert [key][1..] == [];
      if !root.Object? {
        return Err(KeyError);
      }
      if !HasKey(root, key) {
        AddLaws(root, key, Object([]), key);
        PutAdded(root, key, Object([]), value);
        root := Add(root, key, Object([]));
      }
      root := Put(root, key, value);
      return Ok(());
    }

    method GetValueInJson(keys: Path) returns (r: Result<Json>)
      ensures r == Lookup(root, keys)
    {
      var jval := root;
      for i := 0 to |keys|
        invariant Lookup(root, keys) == Lookup(jval, keys[i..])
      {
        assert keys[i..][1..] == keys[i + 1..];
        if !jval.Object? {
          return Err(TypeError);
        }
        if !HasKey(jval, keys[i]) {
          return Err(KeyError);
        }
        jval := Get(jval, keys[i]);
      }
      return Ok(jval);
    }

    method GetIndexed(keys: Path, idx: nat) returns (r: Result<Json>)
      ensures r == match Lookup(root, keys)
                   case Err(e) => Err(e)
                   case Ok(v) => if !v.Array? then Err(TypeError)
                                 else if idx >= |v.items| then Err(IndexError) else Ok(v.items[idx])
    {
      r := GetValueInJson(keys);
      if r.Ok? {
        var jval := r.value;
        if !jval.Array? {
          return Err(TypeError);
        }
        if idx >= |jval.items| {
          return Err(IndexError);
        }
        return Ok(jval.items[idx]);
      }
    }

    /** Holds exactly when looking the path up does not throw. */
    method Includes(keys: Path) returns (found: bool)
      ensures found <==> Lookup(root, keys).Ok?
    {
      var jval := root;
      for i := 0 to |keys|
        invariant Lookup(root, keys) == Lookup(jval, keys[i..])
      {
        assert keys[i..][1..] == keys[i + 1..];
        if !HasKey(jval, keys[i]) {
          return false;
        }
        jval := Get(jval, keys[i]);
      }
      return true;
    }

    /** The default stands in for a missing entry only when the parent is an object. */
    method GetIntWithDefault(keys: Path, default: int) returns (r: Result<int>)
      requires keys != []
      ensures match Lookup(root, keys)
              case Ok(v) => r == if v.Null? then Ok(0)
                                 else if v.Int? && -0x8000_0000 <= v.n < 0x8000_0000 then Ok(v.n) else Err(TypeError)
              case Err(e) => r == match Lookup(root, keys[..|keys| - 1])
                                  case Err(e) => Err(e)
                                  case Ok(parent) => if parent.Object? then Ok(default) else Err(TypeError)
    {
      var last := keys[|keys| - 1];
      var init := keys[..|keys| - 1];
      assert keys == init + [last];
      LookupConcat(root, init, [last]);
      assert [last][1..] == [];
      var parent := GetValueInJson(init);
      if parent.Err? {
        return Err(parent.error);
      }
      if !parent.value.Object? {
        return Err(TypeError);
      }
      if !HasKey(parent.value, last) {
        return Ok(default);
      }
      return AsInt(Get(parent.value, last));
    }

    method Keys() returns (k: seq<string>)
      ensures k == if root.Object? then Names(root.members) else []
    {
      k := [];
      if root.Object? {
        for i := 0 to |root.members|
          invariant k == Names(root.members[..i])
        {
          assert root.members[..i + 1][..i] == root.members[..i];
          k := k + [root.members[i].name];
        }
        assert root.members[..|root.members|] == root.members;
      }
    }
  }

  function Names(members: seq<Member>): (names: seq<string>)
    ensures |names| == |members| && forall i :: 0 <= i < |members| ==> names[i] == members[i].name
  {
    seq(|members|, i requires 0 <= i < |members| => members[i].name)
  }

  /** The result of changing what the path leads to, seen from the root. */
  function Lifted(v: Json, path: Path, r: Result<Json>): Result<Json>
    requires Lookup(v, path).Ok?
  {
    match r case Ok(x) => Ok(Replace(v, path, x)) case Err(e) => Err(e)
  }

  /** One key leads to the value of the first member of that name. */
  lemma LookupOne(v: Json, key: string, i: nat)
    requires '\0' !in key && v.Object? && i <= |v.members|
    requires forall j :: 0 <= j < i ==> v.members[j].name != key
    ensures i < |v.members| && v.members[i].name == key ==> Lookup(v, [key]) == Ok(v.members[i].value)
    ensures i == |v.members| ==> Lookup(v, [key]) == Err(KeyError)
  {
    KeysEndAtNul(key, []);
    assert [key][1..] == [];
    if i == |v.members| || v.members[i].name == key {
      IndexOfIs(v.members, key, i);
    }
  }

  lemma LookupNothing(v: Json, path: Path)
    ensures Lookup(v, []) == Ok(v)
    ensures path != [] && !v.Object? ==> Lookup(v, path) == Err(TypeError)
  {
  }

  // ----- The walk of set -----

  /** After i keys the pointer is at keys[..i], the document is untouched unless the pointer is in a new
      object, and setting the rest from the pointer is what setting from the root was to be. */
  ghost predicate Walking(was: Json, now: Json, keys: Path, i: nat, value: Json) {
    && i <= |keys|
    && Lookup(now, keys[..i]).Ok?
    && (now == was || Lookup(now, keys[..i]) == Ok(Object([])))
    && SetAt(was, keys, value) == Lifted(now, keys[..i], SetAt(Lookup(now, keys[..i]).value, keys[i..], value))
  }

  lemma WalkOn(was: Json, now: Json, keys: Path, i: nat, value: Json)
    requires i < |keys| && Walking(was, now, keys, i, value) && Lookup(now, keys[..i]).value.Object?
    ensures var jval := Lookup(now, keys[..i]).value;
            Walking(was, if HasKey(jval, keys[i]) then now else Replace(now, keys[..i], Add(jval, keys[i], Object([]))),
                    keys, i + 1, value)
  {
    var jval, key := Lookup(now, keys[..i]).value, keys[i];
    assert keys[..i + 1] == keys[..i] + [key];
    assert keys[i..] == [key] + keys[i + 1..];
    if HasKey(jval, key) {
      DescendStep(now, keys[..i], key, keys[i + 1..], value);
    } else {
      CreateStep(now, keys[..i], key, keys[i + 1..], value);
    }
  }

  lemma {:induction false} LookupConcat(v: Json, p: Path, q: Path)
    ensures Lookup(v, p + q) == match Lookup(v, p) case Ok(w) => Lookup(w, q) case Err(e) => Err(e)
    decreases p
  {
    if p == [] {
      assert p + q == q;
    } else {
      assert (p + q)[1..] == p[1..] + q;
      if HasKey(v, p[0]) {
        LookupConcat(Get(v, p[0]), p[1..], q);
      }
    }
  }

  lemma {:induction false} LookupReplaced(v: Json, path: Path, x: Json)
    requires Lookup(v, path).Ok?
    ensures Lookup(Replace(v, path, x), path) == Ok(x)
    ensures forall y :: Replace(Replace(v, path, x), path, y) == Replace(v, path, y)
    decreases path
  {
    if path != [] {
      var sub := Replace(Get(v, path[0]), path[1..], x);
      PutLaws(v, path[0], sub, path[0]);
      LookupReplaced(Get(v, path[0]), path[1..], x);
      forall y
        ensures Replace(Replace(v, path, x), path, y) == Replace(v, path, y)
      {
        PutTwice(v, path[0], sub, Replace(Get(v, path[0]), path[1..], y));
      }
    }
  }

  lemma PutTwice(v: Json, key: string, x: Json, y: Json)
    requires HasKey(v, key)
    ensures HasKey(Put(v, key, x), key) && Put(Put(v, key, x), key, y) == Put(v, key, y)
  {
    PutLaws(v, key, x, key);
    IndexOfIs(Put(v, key, x).members, CString(key), IndexOf(v.members, CString(key)));
  }

  lemma PutAdded(v: Json, key: string, x: Json, y: Json)
    requires v.Object? && !HasKey(v, key)
    ensures HasKey(Add(v, key, x), key) && Put(Add(v, key, x), key, y) == Add(v, key, y)
  {
    IndexOfIs(Add(v, key, x).members, CString(key), |v.members|);
  }

  /** Replacing one level deeper is putting into the object that is replaced. */
  lemma {:induction false} ReplaceDeeper(v: Json, path: Path, key: string, x: Json)
    requires Lookup(v, path).Ok? && HasKey(Lookup(v, path).value, key)
    ensures Lookup(v, path + [key]) == Ok(Get(Lookup(v, path).value, key))
    ensures Replace(v, path + [key], x) == Replace(v, path, Put(Lookup(v, path).value, key, x))
    decreases path
  {
    if path == [] {
      assert path + [key] == [key] && [key][1..] == [];
    } else {
      assert (path + [key])[1..] == path[1..] + [key];
      ReplaceDeeper(Get(v, path[0]), path[1..], key, x);
    }
  }

  lemma DescendStep(v: Json, path: Path, key: string, rest: Path, x: Json)
    requires Lookup(v, path).Ok? && HasKey(Lookup(v, path).value, key)
    ensures Lookup(v, path + [key]) == Ok(Get(Lookup(v, path).value, key))
    ensures Lifted(v, path, SetAt(Lookup(v, path).value, [key] + rest, x)) ==
            Lifted(v, path + [key], SetAt(Get(Lookup(v, path).value, key), rest, x))
    ensures Lookup(v, path) != Ok(Object([]))
  {
    var jval := Lookup(v, path).value;
    assert ([key] + rest)[1..] == rest;
    ReplaceDeeper(v, path, key, x);
    match SetAt(Get(jval, key), rest, x)
    case Ok(w) => ReplaceDeeper(v, path, key, w);
    case Err(_) =>
  }

  lemma CreateStep(v: Json, path: Path, key: string, rest: Path, x: Json)
    requires Lookup(v, path).Ok? && Lookup(v, path).value.Object? && !HasKey(Lookup(v, path).value, key)
    ensures var now := Replace(v, path, Add(Lookup(v, path).value, key, Object([])));
            && Lookup(now, path + [key]) == Ok(Object([]))
            && Lifted(v, path, SetAt(Lookup(v, path).value, [key] + rest, x)) ==
               Lifted(now, path + [key], SetAt(Object([]), rest, x))
  {
    var jval := Lookup(v, path).value;
    var missing := Add(jval, key, Object([]));
    var now := Replace(v, path, missing);
    LookupReplaced(v, path, missing);
    AddLaws(jval, key, Object([]), key);
    ReplaceDeeper(now, path, key, x);
    assert ([key] + rest)[1..] == rest;
    match SetAt(Object([]), rest, x)
    case Ok(w) =>
      ReplaceDeeper(now, path, key, w);
      PutAdded(jval, key, Object([]), w);
    case Err(_) =>
  }

  // ----- Path laws -----

  predicate SameKey(a: string, b: string) {
    CString(a) == CString(b)
  }

  predicate IsPrefix(p: Path, q: Path) {
    |p| <= |q| && forall i :: 0 <= i < |p| ==> SameKey(p[i], q[i])
  }

  /** Setting in a fresh object cannot fail. */
  lemma {:induction false} FreshNeverFails(path: Path, x: Json)
    ensures SetAt(Object([]), path, x).Ok?
    decreases path
  {
    if path != [] {
      FreshNeverFails(path[1..], x);
    }
  }

  predicate Blocks(v: Json, path: Path, i: nat)
    requires i <= |path|
  {
    var at := Lookup(v, path[..i]);
    at.Ok? && !at.value.Object?
  }

  lemma {:induction false} BlockedExactly(v: Json, path: Path, x: Json)
    ensures SetAt(v, path, x).Err? <==> exists i :: 0 <= i < |path| && Blocks(v, path, i)
    ensures SetAt(v, path, x).Err? ==> SetAt(v, path, x) == Err(KeyError)
    decreases path
  {
    if path == [] {
    } else if !v.Object? {
      assert Blocks(v, path, 0);
    } else if HasKey(v, path[0]) {
      var sub := Get(v, path[0]);
      BlockedExactly(sub, path[1..], x);
      forall i | 0 <= i < |path| - 1
        ensures Blocks(sub, path[1..], i) <==> Blocks(v, path, i + 1)
      {
        assert path[..i + 1][1..] == path[1..][..i];
      }
      if exists i :: 0 <= i < |path| && Blocks(v, path, i) {
        var i :| 0 <= i < |path| && Blocks(v, path, i);
        assert i > 0;
        assert Blocks(sub, path[1..], i - 1);
      }
    } else {
      FreshNeverFails(path[1..], x);
      forall i | 0 <= i < |path|
        ensures !Blocks(v, path, i)
      {
        if i > 0 {
          assert path[..i][0] == path[0];
        }
      }
    }
  }

  /** set fails exactly when some proper prefix of the path leads to something that is not an object, and
      then with a key error. */
  lemma FailsWhenBlocked(v: Json, path: Path, x: Json)
    ensures SetAt(v, path, x).Err? <==>
            exists i :: 0 <= i < |path| && Lookup(v, path[..i]).Ok? && !Lookup(v, path[..i]).value.Object?
    ensures SetAt(v, path, x).Err? ==> SetAt(v, path, x) == Err(KeyError)
  {
    BlockedExactly(v, path, x);
    assert forall i :: 0 <= i < |path| ==>
             (Blocks(v, path, i) <==> Lookup(v, path[..i]).Ok? && !Lookup(v, path[..i]).value.Object?);
  }

  /** After a successful set, the path and everything below it is the new value. */
  lemma {:induction false} GetSet(v: Json, path: Path, x: Json, below: Path)
    requires SetAt(v, path, x).Ok?
    ensures Lookup(SetAt(v, path, x).value, path + below) == Lookup(x, below)
    decreases path
  {
    if path == [] {
      assert path + below == below;
    } else {
      assert (path + below)[1..] == path[1..] + below;
      if HasKey(v, path[0]) {
        GetSet(Get(v, path[0]), path[1..], x, below);
        PutLaws(v, path[0], SetAt(Get(v, path[0]), path[1..], x).value, path[0]);
      } else {
        GetSet(Object([]), path[1..], x, below);
        AddLaws(v, path[0], SetAt(Object([]), path[1..], x).value, path[0]);
      }
    }
  }

  /** Every path that is neither a prefix nor an extension of the one set is looked up as before. */
  lemma {:induction false} SetFrames(v: Json, path: Path, x: Json, other: Path)
    requires SetAt(v, path, x).Ok? && !IsPrefix(path, other) && !IsPrefix(other, path)
    ensures Lookup(SetAt(v, path, x).value, other) == Lookup(v, other)
    decreases path
  {
    var missing := !HasKey(v, path[0]);
    var sub := if missing then Object([]) else Get(v, path[0]);
    var w := SetAt(sub, path[1..], x).value;
    if missing {
      AddLaws(v, path[0], w, other[0]);
    } else {
      PutLaws(v, path[0], w, other[0]);
    }
    if SameKey(path[0], other[0]) {
      IsPrefixTail(path, other);
      IsPrefixTail(other, path);
      SetFrames(sub, path[1..], x, other[1..]);
      if missing {
        assert Lookup(Object([]), other[1..]) == Err(KeyError);
      }
    }
  }

  lemma IsPrefixTail(p: Path, q: Path)
    requires p != [] && q != [] && SameKey(p[0], q[0])
    ensures IsPrefix(p[1..], q[1..]) <==> IsPrefix(p, q)
  {
    if IsPrefix(p[1..], q[1..]) {
      forall i | 0 <= i < |p|
        ensures SameKey(p[i], q[i])
      {
        if i > 0 {
          assert SameKey(p[1..][i - 1], q[1..][i - 1]);
        }
      }
    }
  }

  /** On the way to the value set, every object keeps its member names in order; the one where the path
      left the document gets one new name, last. */
  lemma {:induction false} SetKeepsOrder(v: Json, path: Path, x: Json, i: nat)
    requires SetAt(v, path, x).Ok? && i < |path| && Lookup(v, path[..i]).Ok?
    ensures var was, now := Lookup(v, path[..i]), Lookup(SetAt(v, path, x).value, path[..i]);
            && was.value.Object? && now.Ok? && now.value.Object?
            && Names(now.value.members) == Names(was.value.members)
                                           + if HasKey(was.value, path[i]) then [] else [CString(path[i])]
    decreases path
  {
    if i > 0 {
      assert path[..i][0] == path[0] && path[..i][1..] == path[1..][..i - 1];
      SetKeepsOrder(Get(v, path[0]), path[1..], x, i - 1);
      PutLaws(v, path[0], SetAt(Get(v, path[0]), path[1..], x).value, path[0]);
    } else {
      assert path[..0] == [];
    }
  }

  /** Setting twice is setting once, and setting what is there changes nothing. */
  lemma {:induction false} SetSet(v: Json, path: Path, x: Json, y: Json)
    requires SetAt(v, path, x).Ok?
    ensures SetAt(SetAt(v, path, x).value, path, y) == SetAt(v, path, y)
    decreases path
  {
    if path != [] {
      var missing := !HasKey(v, path[0]);
      var sub := if missing then Object([]) else Get(v, path[0]);
      SetSet(sub, path[1..], x, y);
      var w := SetAt(sub, path[1..], x).value;
      var u := SetAt(sub, path[1..], y);
      if missing {
        AddLaws(v, path[0], w, path[0]);
        FreshNeverFails(path[1..], y);
        PutAdded(v, path[0], w, u.value);
      } else {
        PutLaws(v, path[0], w, path[0]);
        if u.Ok? {
          PutTwice(v, path[0], w, u.value);
        }
      }
    }
  }

  lemma {:induction false} SetGet(v: Json, path: Path)
    requires Lookup(v, path).Ok?
    ensures SetAt(v, path, Lookup(v, path).value) == Ok(v)
    decreases path
  {
    if path != [] {
      SetGet(Get(v, path[0]), path[1..]);
      var i := IndexOf(v.members, CString(path[0]));
      assert v.members[i := v.members[i]] == v.members;
    }
  }

  // ----- The same of keys without NULs -----

  predicate NulFree(path: Path) {
    forall i :: 0 <= i < |path| ==> '\0' !in path[i]
  }

  lemma PrefixPlainly(p: Path, q: Path)
    requires NulFree(p) && NulFree(q)
    ensures IsPrefix(p, q) <==> p <= q
  {
    forall i | 0 <= i < |p| && i < |q|
      ensures SameKey(p[i], q[i]) <==> p[i] == q[i]
    {
      KeysEndAtNul(p[i], []);
      KeysEndAtNul(q[i], []);
    }
  }

  /** Setting a value changes what no other path leads to, unless one of the two is a prefix of the other. */
  lemma SetFramesPlainly(v: Json, path: Path, x: Json, other: Path)
    requires forall i :: 0 <= i < |path| ==> '\0' !in path[i]
    requires forall i :: 0 <= i < |other| ==> '\0' !in other[i]
    requires SetAt(v, path, x).Ok? && !(path <= other) && !(other <= path)
    ensures Lookup(SetAt(v, path, x).value, other) == Lookup(v, other)
  {
    PrefixPlainly(path, other);
    PrefixPlainly(other, path);
    SetFrames(v, path, x, other);
  }

  /** A created member has the key for its name. */
  lemma SetKeepsOrderPlainly(v: Json, path: Path, x: Json, i: nat)
    requires SetAt(v, path, x).Ok? && i < |path| && '\0' !in path[i] && Lookup(v, path[..i]).Ok?
    ensures var was, now := Lookup(v, path[..i]), Lookup(SetAt(v, path, x).value, path[..i]);
            && was.value.Object? && now.Ok? && now.value.Object?
            && var names := Names(was.value.members);
               Names(now.value.members) == if path[i] in names then names else names + [path[i]]
  {
    SetKeepsOrder(v, path, x, i);
    KeysEndAtNul(path[i], []);
    var was := Lookup(v, path[..i]).value;
    var names := Names(was.members);
    var k := IndexOf(was.members, path[i]);
    assert k < |was.members| ==> names[k] == path[i];
  }

  // ----- Typed values -----

  predicate IsInt32(n: int) {
    -0x8000_0000 <= n < 0x8000_0000
  }

  /** getValue<int>: null reads as 0. */
  function AsInt(v: Json): Result<int> {
    if v.Null? then Ok(0) else if v.Int? && IsInt32(v.n) then Ok(v.n) else Err(TypeError)
  }

  /** getValue<vector<int>>: null reads as no elements, and every element must be an integer. */
  method GetInts(v: Json) returns (r: Result<seq<int>>)
    ensures v.Null? ==> r == Ok([])
    ensures !v.Null? && !v.Array? ==> r == Err(TypeError)
    ensures v.Array? ==>
              (r.Ok? <==>
                 forall i :: 0 <= i < |v.items| ==> v.items[i].Int? && -0x8000_0000 <= v.items[i].n < 0x8000_0000)
              && (r.Ok? ==> |r.value| == |v.items| && forall i :: 0 <= i < |v.items| ==> r.value[i] == v.items[i].n)
              && (r.Err? ==> r.error == TypeError)
  {
    if v.Null? {
      return Ok([]);
    }
    if !v.Array? {
      return Err(TypeError);
    }
    var tmp: seq<int> := [];
    for i := 0 to |v.items|
      invariant |tmp| == i
      invariant forall j :: 0 <= j < i ==> v.items[j].Int? && IsInt32(v.items[j].n) && tmp[j] == v.items[j].n
    {
      if !(v.items[i].Int? && IsInt32(v.items[i].n)) {
        return Err(TypeError);
      }
      tmp := tmp + [v.items[i].n];
    }
    return Ok(tmp);
  }

  /** setValue<vector<int>>. */
  method IntsValue(values: seq<int>) returns (v: Json)
    ensures v.Array? && |v.items| == |values| && forall i :: 0 <= i < |values| ==> v.items[i] == Int(values[i])
  {
    var items: seq<Json> := [];
    for i := 0 to |values|
      invariant |items| == i && forall j :: 0 <= j < i ==> items[j] == Int(values[j])
    {
      items := items + [Int(values[i])];
    }
    v := Array(items);
  }
}
