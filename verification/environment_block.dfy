// The Windows environment block: building the sorted map and the block in execute, and reading a block
// back in environment::each.

module EnvironmentBlock {
  import opened Options
  import opened Callbacks
  import opened Searching

  const NUL := '\0'

  datatype Variable = Variable(name: string, value: string)

  // ----- Case-insensitive order -----

  function Upper(c: char): char {
    if 'a' <= c <= 'z' then c - 'a' + 'A' else c
  }

  /** ilexicographical_compare. */
  predicate Less(a: string, b: string) {
    b != [] && (a == [] || Upper(a[0]) < Upper(b[0]) || (Upper(a[0]) == Upper(b[0]) && Less(a[1..], b[1..])))
  }

  predicate Same(a: string, b: string) {
    |a| == |b| && forall i :: 0 <= i < |a| ==> Upper(a[i]) == Upper(b[i])
  }

  lemma SameOne(c: char, d: char)
    ensures Same([c], [d]) <==> Upper(c) == Upper(d)
  {
    assert Same([c], [d]) ==> Upper([c][0]) == Upper([d][0]);
  }

  /** Two characters are the same up to case when they are equal or one is the other's capital, and otherwise
      the one with the smaller code is less, a small letter counting as its capital. */
  lemma CaseIsAscii(c: char, d: char)
    ensures Same([c], [d]) <==>
            c == d || ('a' <= c <= 'z' && c as int == d as int + 32) || ('a' <= d <= 'z' && d as int == c as int + 32)
    ensures var x := if 'a' <= c <= 'z' then c as int - 32 else c as int;
            var y := if 'a' <= d <= 'z' then d as int - 32 else d as int;
            Less([c], [d]) <==> x < y
  {
    SameOne(c, d);
    assert [c][1..] == [] && [d][1..] == [];
    assert !Less([], []);
  }

  /** The order is that of the first characters that differ by more than case, and a proper prefix comes first. */
  lemma {:induction false} OrderIsLexicographic(a: string, b: string)
    ensures !Less(a, []) && (b != [] ==> Less([], b))
    ensures a != [] && b != [] && !Same([a[0]], [b[0]]) ==> (Less(a, b) <==> Less([a[0]], [b[0]]))
    ensures a != [] && b != [] && Same([a[0]], [b[0]]) ==> (Less(a, b) <==> Less(a[1..], b[1..]))
    ensures Same(a, b) <==> |a| == |b| && forall i :: 0 <= i < |a| ==> Same([a[i]], [b[i]])
  {
    if a != [] && b != [] {
      SameOne(a[0], b[0]);
      assert [a[0]][1..] == [] && [b[0]][1..] == [];
      assert !Less([], []);
    }
    forall i | 0 <= i < |a| && i < |b|
      ensures Same([a[i]], [b[i]]) <==> Upper(a[i]) == Upper(b[i])
    {
      SameOne(a[i], b[i]);
    }
  }

  /** Any two names are ordered one way or are the same up to case, and never both. */
  lemma {:induction false} Trichotomy(a: string, b: string)
    ensures Less(a, b) || Less(b, a) || Same(a, b)
    ensures Less(a, b) ==> !Less(b, a)
    ensures Same(a, b) ==> !Less(a, b) && !Less(b, a)
  {
    if a != [] && b != [] && Upper(a[0]) == Upper(b[0]) {
      Trichotomy(a[1..], b[1..]);
      assert Same(a[1..], b[1..]) <==> Same(a, b) by {
        assert a == [a[0]] + a[1..] && b == [b[0]] + b[1..];
        if Same(a[1..], b[1..]) {
          assert forall i :: 0 < i < |a| ==> a[i] == a[1..][i - 1] && b[i] == b[1..][i - 1];
        }
      }
    }
  }

  lemma {:induction false} LessTransitive(a: string, b: string, c: string)
    requires Less(a, b) && Less(b, c)
    ensures Less(a, c)
  {
    if a != [] && Upper(a[0]) == Upper(b[0]) && Upper(b[0]) == Upper(c[0]) {
      LessTransitive(a[1..], b[1..], c[1..]);
    }
  }

  lemma {:induction false} SameLess(a: string, b: string, c: string)
    requires Same(a, b)
    ensures Less(a, c) <==> Less(b, c)
    ensures Less(c, a) <==> Less(c, b)
  {
    if a != [] && c != [] {
      assert Same(a[1..], b[1..]);
      SameLess(a[1..], b[1..], c[1..]);
    }
  }

  // ----- The sorted map -----

  /** Names strictly increasing, so no two are the same up to case. */
  ghost predicate Sorted(m: seq<Variable>) {
    forall i, j :: 0 <= i < j < |m| ==> Less(m[i].name, m[j].name)
  }

  /** std::map::insert and emplace: an existing equivalent key wins. */
  function Insert(m: seq<Variable>, v: Variable): seq<Variable> {
    if m == [] || Less(v.name, m[0].name) then [v] + m
    else if Less(m[0].name, v.name) then [m[0]] + Insert(m[1..], v)
    else m
  }

  /** The first variable with this name, up to case. */
  function Named(m: seq<Variable>, name: string): (found: Option<Variable>)
    ensures found.Some? ==> found.value in m && Same(found.value.name, name)
  {
    if m == [] then None
    else if Same(m[0].name, name) then Some(m[0])
    else Named(m[1..], name)
  }

  lemma {:induction false} InsertKeepsSorted(m: seq<Variable>, v: Variable)
    requires Sorted(m)
    ensures Sorted(Insert(m, v))
    ensures forall x :: x in Insert(m, v) ==> x == v || x in m
  {
    if m != [] {
      Trichotomy(v.name, m[0].name);
      if Less(v.name, m[0].name) {
        forall j | 1 <= j < |m|
          ensures Less(v.name, m[j].name)
        {
          LessTransitive(v.name, m[0].name, m[j].name);
        }
      } else if Less(m[0].name, v.name) {
        InsertKeepsSorted(m[1..], v);
        var rest := Insert(m[1..], v);
        forall j | 0 <= j < |rest|
          ensures Less(m[0].name, rest[j].name)
        {
          assert rest[j] in rest;
        }
      }
    }
  }

  /** A name that sorts before a sorted map is not in it. */
  lemma {:induction false} NotFound(m: seq<Variable>, name: string)
    requires forall i :: 0 <= i < |m| ==> Less(name, m[i].name)
    ensures Named(m, name) == None
  {
    if m != [] {
      Trichotomy(m[0].name, name);
      NotFound(m[1..], name);
    }
  }

  /** Inserting adds exactly the new name, and only when it was missing. */
  lemma {:induction false} FindInsert(m: seq<Variable>, v: Variable, name: string)
    requires Sorted(m)
    ensures Named(Insert(m, v), name) ==
            if Named(m, name) == None && Same(v.name, name) then Some(v) else Named(m, name)
  {
    if m == [] {
    } else if Less(v.name, m[0].name) {
      assert ([v] + m)[1..] == m;
      if Same(v.name, name) {
        forall i | 0 <= i < |m|
          ensures Less(name, m[i].name)
        {
          if i > 0 {
            LessTransitive(v.name, m[0].name, m[i].name);
          }
          SameLess(v.name, name, m[i].name);
        }
        NotFound(m, name);
      }
    } else if Less(m[0].name, v.name) {
      assert ([m[0]] + Insert(m[1..], v))[1..] == Insert(m[1..], v);
      FindInsert(m[1..], v, name);
    } else {
      Trichotomy(v.name, m[0].name);
      assert Same(v.name, name) ==> Same(m[0].name, name);
    }
  }

  function InsertAll(m: seq<Variable>, vars: seq<Variable>): seq<Variable>
    decreases vars
  {
    if vars == [] then m else InsertAll(Insert(m, vars[0]), vars[1..])
  }

  /** The map holds, for every name, the first of the variables inserted under it. */
  lemma {:induction false} InsertAllLaw(m: seq<Variable>, vars: seq<Variable>, name: string)
    requires Sorted(m)
    ensures Sorted(InsertAll(m, vars))
    ensures Named(InsertAll(m, vars), name) == if Named(m, name).Some? then Named(m, name) else Named(vars, name)
    decreases vars
  {
    if vars != [] {
      InsertKeepsSorted(m, vars[0]);
      FindInsert(m, vars[0], name);
      InsertAllLaw(Insert(m, vars[0]), vars[1..], name);
    }
  }

  lemma {:induction false} InsertAllConcat(m: seq<Variable>, a: seq<Variable>, b: seq<Variable>)
    ensures InsertAll(m, a + b) == InsertAll(InsertAll(m, a), b)
    decreases a
  {
    if a == [] {
      assert a + b == b;
    } else {
      assert (a + b)[1..] == a[1..] + b;
      InsertAllConcat(Insert(m, a[0]), a[1..], b);
    }
  }

  function OneVariable(name: string, value: Option<string>): seq<Variable> {
    match value case None => [] case Some(v) => [Variable(name, v)]
  }

  /** What the child gets for one of the two locale variables that the caller did not set. */
  function Locale(inherit: bool, inherited: Option<string>): Option<string> {
    if inherit then inherited else Some("C")
  }

  /** Everything the environment block is made from, in order of precedence. */
  function Sources(environment: seq<Variable>, inherit: bool, lcAll: Option<string>, lang: Option<string>)
    : seq<Variable>
  {
    environment + OneVariable("LC_ALL", Locale(inherit, lcAll)) + OneVariable("LANG", Locale(inherit, lang))
  }

  /** Under a name, the first variable of that name is found. */
  lemma {:induction false} NamedIsFirst(m: seq<Variable>, name: string, i: nat)
    requires i <= |m| && forall j :: 0 <= j < i ==> !Same(m[j].name, name)
    ensures i == |m| ==> Named(m, name) == None
    ensures i < |m| && Same(m[i].name, name) ==> Named(m, name) == Some(m[i])
  {
    if i > 0 {
      NamedIsFirst(m[1..], name, i - 1);
    }
  }

  lemma {:induction false} NamedConcat(a: seq<Variable>, b: seq<Variable>, name: string)
    ensures Named(a + b, name) == if Named(a, name).Some? then Named(a, name) else Named(b, name)
  {
    if a == [] {
      assert a + b == b;
    } else {
      assert (a + b)[1..] == a[1..] + b;
      NamedConcat(a[1..], b, name);
    }
  }

  /** The locale of a child: what the caller asked for; or else "C", or what the parent has when it is to be
      inherited. Every other variable is the caller's. */
  lemma LocaleOfChild(environment: seq<Variable>, inherit: bool, lcAll: Option<string>, lang: Option<string>,
                      name: string)
    ensures var found := Named(Sources(environment, inherit, lcAll, lang), name);
            if Named(environment, name).Some? then found == Named(environment, name)
            else if Same("LC_ALL", name) then
              found == if !inherit then Some(Variable("LC_ALL", "C"))
                       else if lcAll.Some? then Some(Variable("LC_ALL", lcAll.value)) else None
            else if Same("LANG", name) then
              found == if !inherit then Some(Variable("LANG", "C"))
                       else if lang.Some? then Some(Variable("LANG", lang.value)) else None
            else found == None
  {
    var first := OneVariable("LC_ALL", Locale(inherit, lcAll));
    var second := OneVariable("LANG", Locale(inherit, lang));
    NamedConcat(environment + first, second, name);
    NamedConcat(environment, first, name);
    NamedIsFirst(first, name, if first != [] && Same("LC_ALL", name) then 0 else |first|);
    NamedIsFirst(second, name, if second != [] && Same("LANG", name) then 0 else |second|);
  }

  /** The sorted environment of a child that does not inherit the parent's; `lcAll` and `lang` are the
      parent's values. */
  method SortEnvironment(environment: seq<Variable>, inherit: bool, lcAll: Option<string>, lang: Option<string>)
    returns (sorted: seq<Variable>)
    ensures Sorted(sorted)
    ensures forall name :: Named(sorted, name) == Named(Sources(environment, inherit, lcAll, lang), name)
  {
    sorted := [];
    for i := 0 to |environment|
      invariant sorted == InsertAll([], environment[..i])
    {
      assert environment[..i + 1] == environment[..i] + [environment[i]];
      InsertAllConcat([], environment[..i], [environment[i]]);
      sorted := Insert(sorted, environment[i]);
    }
    assert environment[..|environment|] == environment;
    ghost var first := OneVariable("LC_ALL", Locale(inherit, lcAll));
    ghost var second := OneVariable("LANG", Locale(inherit, lang));
    if inherit && lcAll.Some? {
      sorted := Insert(sorted, Variable("LC_ALL", lcAll.value));
    } else if !inherit {
      sorted := Insert(sorted, Variable("LC_ALL", "C"));
    }
    assert sorted == InsertAll(InsertAll([], environment), first);
    InsertAllConcat([], environment, first);
    if inherit && lang.Some? {
      sorted := Insert(sorted, Variable("LANG", lang.value));
    } else if !inherit {
      sorted := Insert(sorted, Variable("LANG", "C"));
    }
    assert sorted == InsertAll(InsertAll([], environment + first), second);
    InsertAllConcat([], environment + first, second);
    forall name
      ensures Named(sorted, name) == Named(Sources(environment, inherit, lcAll, lang), name)
    {
      InsertAllLaw([], Sources(environment, inherit, lcAll, lang), name);
    }
    InsertAllLaw([], Sources(environment, inherit, lcAll, lang), []);
  }

  // ----- The block -----

  function Text(v: Variable): string {
    v.name + "=" + v.value
  }

  function Strings(m: seq<Variable>): string {
    if m == [] then [] else Text(m[0]) + [NUL] + Strings(m[1..])
  }

  /** Terminated strings, then one more terminator, then a second one when there are no strings. */
  function Block(m: seq<Variable>): string {
    Strings(m) + [NUL] + if m == [] then [NUL] else []
  }

  lemma {:induction false} StringsConcat(a: seq<Variable>, b: seq<Variable>)
    ensures Strings(a + b) == Strings(a) + Strings(b)
  {
    if a == [] {
      assert a + b == b;
    } else {
      assert (a + b)[1..] == a[1..] + b;
      StringsConcat(a[1..], b);
      assert Text(a[0]) + [NUL] + (Strings(a[1..]) + Strings(b)) == Text(a[0]) + [NUL] + Strings(a[1..]) + Strings(b);
    }
  }

  /** A variable is written as NAME=value and a NUL; after the last one comes another NUL, and there are two when there
      are none at all. */
  lemma BlockLayout(v: Variable, m: seq<Variable>)
    ensures Block([]) == "\0\0"
    ensures Block([v]) == v.name + "=" + v.value + "\0\0"
    ensures m != [] ==> Block([v] + m) == v.name + "=" + v.value + "\0" + Block(m)
  {
    assert [v][1..] == [];
    assert ([v] + m)[1..] == m;
    assert Strings([v]) == Text(v) + [NUL] + [];
    assert Text(v) + [NUL] + [] + [NUL] == Text(v) + "\0\0";
    assert (Text(v) + [NUL] + Strings(m)) + [NUL] == Text(v) + [NUL] + (Strings(m) + [NUL]);
  }

  method BuildBlock(sorted: seq<Variable>) returns (block: string)
    ensures block == Block(sorted)
  {
    block := [];
    for i := 0 to |sorted|
      invariant block == Strings(sorted[..i])
    {
      assert sorted[..i + 1] == sorted[..i] + [sorted[i]];
      StringsConcat(sorted[..i], [sorted[i]]);
      assert Strings([sorted[i]]) == Text(sorted[i]) + [NUL] + Strings([]);
      block := block + (sorted[i].name + "=" + sorted[i].value);
      block := block + [NUL];
    }
    assert sorted[..|sorted|] == sorted;
    block := block + [NUL];
    if sorted == [] {
      block := block + [NUL];
    }
  }

  // ----- Reading a block -----

  /** A block a reader cannot run past: it ends in an empty string. */
  predicate WellTerminated(block: string) {
    |block| > 0 && block[|block| - 1] == NUL && (|block| > 1 ==> block[|block| - 2] == NUL)
  }

  lemma FindFirst(a: string, c: char, b: string)
    requires c !in a
    ensures Find(a + [c] + b, 0, |a| + 1 + |b|, c) == |a|
  {
    var s := a + [c] + b;
    assert s[|a|] == c;
    assert forall j :: 0 <= j < |a| ==> s[j] == a[j] && a[j] != c;
  }

  function Split(pair: string): Variable {
    var at := Find(pair, 0, |pair|, '=');
    if at == |pair| then Variable(pair, []) else Variable(pair[..at], pair[at + 1..])
  }

  /** The variables of a block: the strings before the first empty one, split at the first '='. */
  function Variables(block: string): seq<Variable>
    requires WellTerminated(block)
    decreases |block|
  {
    if block[0] == NUL then []
    else
      var end := Find(block, 0, |block|, NUL);
      InBounds(block);
      [Split(block[..end])] + Variables(block[end + 1..])
  }

  lemma InBounds(block: string)
    requires WellTerminated(block) && block[0] != NUL
    ensures var end := Find(block, 0, |block|, NUL); end + 1 < |block| && WellTerminated(block[end + 1..])
  {
    assert block[|block| - 2] == NUL;
  }

  /** A block is read string by string up to the first empty one, and a string is split at its first '='. */
  lemma ReadPair(name: string, value: string, rest: string)
    requires NUL !in name && '=' !in name && NUL !in value && WellTerminated(rest)
    ensures var block := name + "=" + value + "\0" + rest;
            WellTerminated(block) && Variables(block) == [Variable(name, value)] + Variables(rest)
  {
    var pair := name + "=" + value;
    FindFirst(name, '=', value);
    ReadString(pair, rest);
    assert pair[..|name|] == name && pair[|name| + 1..] == value;
  }

  /** A string without '=' is all name, and nothing is read from the first empty string on. */
  lemma ReadName(name: string, rest: string)
    requires name != [] && NUL !in name && '=' !in name && WellTerminated(rest)
    ensures var block := name + "\0" + rest;
            WellTerminated(block) && Variables(block) == [Variable(name, [])] + Variables(rest)
    ensures rest[0] == NUL ==> Variables(rest) == []
  {
    ReadString(name, rest);
  }

  lemma ReadString(pair: string, rest: string)
    requires pair != [] && NUL !in pair && WellTerminated(rest)
    ensures var block := pair + [NUL] + rest;
            WellTerminated(block) && Variables(block) == [Split(pair)] + Variables(rest)
  {
    var block := pair + [NUL] + rest;
    FindFirst(pair, NUL, rest);
    assert block[0] == pair[0];
    assert block[..|pair|] == pair && block[|pair| + 1..] == rest;
  }

  /** environment::each over a block. Returns the variables the callback was handed. */
  method Each(block: string, accept: seq<Variable> -> bool) returns (seen: seq<Variable>)
    requires WellTerminated(block)
    ensures seen == Taken(accept, [], Variables(block))
  {
    seen := [];
    var variables := block;  // the text the pointer points to
    while variables[0] != NUL
      invariant WellTerminated(variables)
      invariant Taken(accept, [], Variables(block)) == Taken(accept, seen, Variables(variables))
      decreases |variables|
    {
      InBounds(variables);
      var length := Find(variables, 0, |variables|, NUL);
      var pair := variables[..length];
      var name, value := pair, [];
      var pos := Find(pair, 0, |pair|, '=');
      if pos < |pair| {
        name, value := pair[..pos], pair[pos + 1..];
      }
      variables := variables[length + 1..];
      ghost var rest := Variables(variables);
      assert ([Variable(name, value)] + rest)[1..] == rest;
      seen := seen + [Variable(name, value)];
      if !accept(seen) {
        return;
      }
    }
  }

  // ----- The round trip -----

  predicate CleanVariable(v: Variable) {
    NUL !in v.name && '=' !in v.name && NUL !in v.value
  }

  predicate Clean(m: seq<Variable>) {
    forall i :: 0 <= i < |m| ==> CleanVariable(m[i])
  }

  /** The reader only ever produces names without '=' and text without NUL. */
  lemma {:induction false} VariablesAreClean(block: string)
    requires WellTerminated(block)
    ensures Clean(Variables(block))
    decreases |block|
  {
    if block[0] != NUL {
      InBounds(block);
      var end := Find(block, 0, |block|, NUL);
      VariablesAreClean(block[end + 1..]);
      var pair := block[..end];
      var at := Find(pair, 0, |pair|, '=');
      assert CleanVariable(Split(pair));
    }
  }

  lemma {:induction false} BlockIsWellTerminated(m: seq<Variable>)
    ensures WellTerminated(Block(m))
    ensures m != [] ==> Strings(m) != [] && Strings(m)[|Strings(m)| - 1] == NUL
  {
    if |m| > 0 {
      BlockIsWellTerminated(m[1..]);
    }
  }

  /** Reading a block that begins with an entry reads the entry, and then the rest. */
  lemma ReadOn(v: Variable, rest: string)
    requires CleanVariable(v) && WellTerminated(rest)
    ensures var block := Text(v) + [NUL] + rest;
            WellTerminated(block) && Variables(block) == [v] + Variables(rest)
  {
    ReadPair(v.name, v.value, rest);
  }

  lemma StringsOn(m: seq<Variable>, after: string)
    requires m != []
    ensures Strings(m) + after == Text(m[0]) + [NUL] + (Strings(m[1..]) + after)
  {
    var first, rest := Text(m[0]) + [NUL], Strings(m[1..]);
    assert Strings(m) == first + rest;
    assert (first + rest) + after == first + (rest + after);
  }

  lemma {:induction false} ReadStrings(m: seq<Variable>)
    requires Clean(m)
    ensures WellTerminated(Strings(m) + [NUL]) && Variables(Strings(m) + [NUL]) == m
  {
    if m != [] {
      ReadStrings(m[1..]);
      ReadOn(m[0], Strings(m[1..]) + [NUL]);
      StringsOn(m, [NUL]);
    }
  }

  /** The round trip, exactly: reading the block gives the map back if and only if no name holds '=' and
      nothing holds NUL. */
  lemma RoundTrip(m: seq<Variable>)
    ensures WellTerminated(Block(m))
    ensures Variables(Block(m)) == m <==> Clean(m)
  {
    BlockIsWellTerminated(m);
    if Variables(Block(m)) == m {
      VariablesAreClean(Block(m));
    }
    if Clean(m) {
      ReadStrings(m);
      if m != [] {
        assert Block(m) == Strings(m) + [NUL];
      }
    }
  }

  // ----- From the caller's variables to what the child reads -----

  /** Every element of a sorted map is found under its own name. */
  lemma {:induction false} NamedInSorted(m: seq<Variable>, i: nat)
    requires Sorted(m) && i < |m|
    ensures Named(m, m[i].name) == Some(m[i])
  {
    if i > 0 {
      Trichotomy(m[0].name, m[i].name);
      NamedInSorted(m[1..], i - 1);
    }
  }

  /** A sorted map is determined by what is found in it, spelling included. */
  lemma {:induction false} SortedIsDetermined(a: seq<Variable>, b: seq<Variable>)
    requires Sorted(a) && Sorted(b) && forall name :: Named(a, name) == Named(b, name)
    ensures a == b
  {
    if a == [] || b == [] {
      if a != [] {
        NamedInSorted(a, 0);
      }
      if b != [] {
        NamedInSorted(b, 0);
      }
    } else {
      SameFirst(a, b);
      forall name
        ensures Named(a[1..], name) == Named(b[1..], name)
      {
        NamedInTail(a, name);
        NamedInTail(b, name);
      }
      SortedIsDetermined(a[1..], b[1..]);
      assert a == [a[0]] + a[1..] && b == [b[0]] + b[1..];
    }
  }

  lemma SameFirst(a: seq<Variable>, b: seq<Variable>)
    requires Sorted(a) && Sorted(b) && a != [] && b != []
    requires forall name :: Named(a, name) == Named(b, name)
    ensures a[0] == b[0]
  {
    NamedInSorted(a, 0);
    NamedInSorted(b, 0);
    Trichotomy(a[0].name, b[0].name);
    if Less(a[0].name, b[0].name) {
      BelowAll(b, a[0].name);
    } else if Less(b[0].name, a[0].name) {
      BelowAll(a, b[0].name);
    }
  }

  /** A name below the first of a sorted map is not in it. */
  lemma BelowAll(m: seq<Variable>, name: string)
    requires Sorted(m) && m != [] && Less(name, m[0].name)
    ensures Named(m, name) == None
  {
    forall i | 0 <= i < |m|
      ensures Less(name, m[i].name)
    {
      if i > 0 {
        LessTransitive(name, m[0].name, m[i].name);
      }
    }
    NotFound(m, name);
  }

  lemma NamedInTail(m: seq<Variable>, name: string)
    requires Sorted(m) && m != []
    ensures Named(m[1..], name) == if Same(m[0].name, name) then None else Named(m, name)
  {
    if Same(m[0].name, name) {
      forall i | 0 <= i < |m[1..]|
        ensures Less(name, m[1..][i].name)
      {
        SameLess(m[0].name, name, m[i + 1].name);
      }
      NotFound(m[1..], name);
    }
  }

  /** Every variable that a child would look up can be written as a NAME=value string. */
  predicate WinnersClean(sources: seq<Variable>) {
    forall v :: v in sources && Named(sources, v.name) == Some(v) ==> CleanVariable(v)
  }

  /** The block a child that does not inherit its parent's environment is started with. What the child reads
      in it is sorted and has, under each name, the variable that comes first among the sources, spelled as
      it is there, if and only if those variables can be written at all. */
  method ChildEnvironment(environment: seq<Variable>, inherit: bool, lcAll: Option<string>, lang: Option<string>)
    returns (block: string)
    ensures WellTerminated(block)
    ensures var sources := Sources(environment, inherit, lcAll, lang);
            Reads(block, sources) <==> WinnersClean(sources)
  {
    var sorted := SortEnvironment(environment, inherit, lcAll, lang);
    block := BuildBlock(sorted);
    RoundTrip(sorted);
    ReadsExactly(sorted, Sources(environment, inherit, lcAll, lang));
  }

  ghost predicate Reads(block: string, sources: seq<Variable>)
    requires WellTerminated(block)
  {
    Sorted(Variables(block)) && forall name :: Named(Variables(block), name) == Named(sources, name)
  }

  lemma ReadsExactly(sorted: seq<Variable>, sources: seq<Variable>)
    requires Sorted(sorted) && forall name :: Named(sorted, name) == Named(sources, name)
    ensures WellTerminated(Block(sorted))
    ensures Reads(Block(sorted), sources) <==> WinnersClean(sources)
  {
    RoundTrip(sorted);
    if Reads(Block(sorted), sources) {
      SortedIsDetermined(Variables(Block(sorted)), sorted);
    }
    if Clean(sorted) {
      forall v | v in sources && Named(sources, v.name) == Some(v)
        ensures CleanVariable(v)
      {
        assert Named(sorted, v.name) == Some(v);
      }
    }
    if WinnersClean(sources) {
      forall i | 0 <= i < |sorted|
        ensures CleanVariable(sorted[i])
      {
        NamedInSorted(sorted, i);
        assert Named(sources, sorted[i].name) == Some(sorted[i]);
      }
    }
  }
}
