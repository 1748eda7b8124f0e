// Scoped resources: one deleter call for each resource however holders are moved, and environment
// variables that come back when their scopes end.

module ScopedResource {
  /** What a scoped_resource holds: a resource, and whether its deleter is still to be called. */
  datatype Holding<+R> = Holding(resource: R, armed: bool)

  /** The log of deleter calls, in order. */
  class Deletions<R> {
    var ran: seq<R>

    constructor ()
      ensures ran == []
    {
      ran := [];
    }

    method Run(resource: R)
      modifies this
      ensures ran == old(ran) + [resource]
    {
      ran := ran + [resource];
    }
  }

  class Scoped<R> {
    var resource: R
    var deleter: bool  // whether the deleter is set

    function Held(): Holding<R>
      reads this
    {
      Holding(resource, deleter)
    }

    constructor (resource: R)
      ensures Held() == Holding(resource, true)
    {
      this.resource, deleter := resource, true;
    }

    /** An uninitialized holder, to be filled by a move. */
    constructor Empty(unused: R)
      ensures Held() == Holding(unused, false)
    {
      resource, deleter := unused, false;
    }

    method Release(log: Deletions<R>)
      modifies this, log
      ensures Held() == Holding(old(resource), false)
      ensures log.ran == old(log.ran) + if old(deleter) then [old(resource)] else []
    {
      if deleter {
        log.Run(resource);
        deleter := false;
      }
    }

    /** Move assignment; a holder may be moved into itself. */
    method MoveFrom(other: Scoped<R>, log: Deletions<R>)
      modifies this, other, log
      ensures log.ran == old(log.ran) + if old(deleter) then [old(resource)] else []
      ensures Held() == Holding(old(other.resource), this != other && old(other.deleter))
      ensures other.Held() == Holding(old(other.resource), false) || this == other
    {
      Release(log);
      resource := other.resource;
      deleter := other.deleter;
      other.deleter := false;
    }
  }

  function Released<R>(h: Holding<R>, ran: seq<R>): (Holding<R>, seq<R>) {
    if h.armed then (h.(armed := false), ran + [h.resource]) else (h, ran)
  }

  // ----- Any sequence of operations -----

  /** Operations on numbered holders. A construction adds a holder; destruction is release, after which
      nothing is held. */
  datatype Op<+R> =
    | Acquire(resource: R)
    | MoveConstruct(from: nat)
    | MoveAssign(to: nat, from: nat)
    | Release(i: nat)
    | Destroy(i: nat)

  datatype World<+R> = World(holders: seq<Holding<R>>, ran: seq<R>, acquired: seq<R>)

  function Step<R>(w: World<R>, op: Op<R>): World<R> {
    match op
    case Acquire(r) => World(w.holders + [Holding(r, true)], w.ran, w.acquired + [r])
    case MoveConstruct(from) =>
      if from >= |w.holders| then w
      else Moved(w.(holders := w.holders + [w.holders[from].(armed := false)]), |w.holders|, from)
    case MoveAssign(to, from) =>
      if to >= |w.holders| || from >= |w.holders| then w else Moved(w, to, from)
    case Release(i) => if i >= |w.holders| then w else Dropped(w, i)
    case Destroy(i) => if i >= |w.holders| then w else Dropped(w, i)
  }

  function Dropped<R>(w: World<R>, i: nat): World<R>
    requires i < |w.holders|
  {
    var (h, ran) := Released(w.holders[i], w.ran);
    w.(holders := w.holders[i := h], ran := ran)
  }

  function Moved<R>(w: World<R>, to: nat, from: nat): World<R>
    requires to < |w.holders| && from < |w.holders|
  {
    var d := Dropped(w, to);
    d.(holders := d.holders[to := d.holders[from]][from := d.holders[from].(armed := false)])
  }

  /** What the operations do. A construction acquires. */
  lemma AcquireMeans<R>(w: World<R>, r: R)
    ensures Step(w, Acquire(r)) == World(w.holders + [Holding(r, true)], w.ran, w.acquired + [r])
  {
  }

  /** Release and destruction delete what the holder owns, once, and leave it with nothing. */
  lemma ReleaseMeans<R>(w: World<R>, i: nat)
    requires i < |w.holders|
    ensures var h := w.holders[i];
            Step(w, Release(i)) == World(w.holders[i := Holding(h.resource, false)],
                                         w.ran + if h.armed then [h.resource] else [], w.acquired)
    ensures Step(w, Destroy(i)) == Step(w, Release(i))
  {
  }

  /** A move assignment releases the target, which then owns what the source did; the source owns nothing, and so
      does a holder that is moved into itself. */
  lemma MoveAssignMeans<R>(w: World<R>, target: nat, from: nat)
    requires target < |w.holders| && from < |w.holders|
    ensures var next := Step(w, MoveAssign(target, from));
            var h, g := w.holders[target], w.holders[from];
            && next.ran == w.ran + (if h.armed then [h.resource] else []) && next.acquired == w.acquired
            && |next.holders| == |w.holders|
            && next.holders[from] == Holding(g.resource, false)
            && (target != from ==> next.holders[target] == g)
            && forall j :: 0 <= j < |w.holders| && j != target && j != from ==> next.holders[j] == w.holders[j]
  {
  }

  /** A move construction deletes nothing; the new holder owns what the source did. */
  lemma MoveConstructMeans<R>(w: World<R>, from: nat)
    requires from < |w.holders|
    ensures var g := w.holders[from];
            Step(w, MoveConstruct(from)) ==
            World(w.holders[from := Holding(g.resource, false)] + [g], w.ran, w.acquired)
  {
  }

  function Run<R>(w: World<R>, ops: seq<Op<R>>): World<R> {
    if ops == [] then w else Step(Run(w, ops[..|ops| - 1]), ops[|ops| - 1])
  }

  /** Runs the operations on real holders: they end up as the state machine says. */
  method Execute<R>(ops: seq<Op<R>>, blank: R) returns (holders: seq<Scoped<R>>, log: Deletions<R>)
    ensures Represents(holders, log, Run(World([], [], []), ops))
  {
    log := new Deletions<R>();
    holders := [];
    ghost var start: World<R> := World([], [], []);
    for k := 0 to |ops|
      invariant fresh(log) && forall i :: 0 <= i < |holders| ==> fresh(holders[i])
      invariant Represents(holders, log, Run(start, ops[..k]))
    {
      assert ops[..k + 1][..k] == ops[..k];
      holders := ExecuteOne(holders, log, ops[k], blank, Run(start, ops[..k]));
    }
    assert ops[..|ops|] == ops;
  }

  ghost predicate Represents<R>(holders: seq<Scoped<R>>, log: Deletions<R>, w: World<R>)
    reads holders, log
  {
    && |holders| == |w.holders| && log.ran == w.ran
    && (forall i :: 0 <= i < |holders| ==> holders[i].Held() == w.holders[i])
    && (forall i, j :: 0 <= i < j < |holders| ==> holders[i] != holders[j])
  }

  method ExecuteOne<R>(holders: seq<Scoped<R>>, log: Deletions<R>, op: Op<R>, blank: R, ghost w: World<R>)
    returns (now: seq<Scoped<R>>)
    requires Represents(holders, log, w)
    modifies holders, log
    ensures Represents(now, log, Step(w, op))
    ensures holders <= now && forall i :: |holders| <= i < |now| ==> fresh(now[i])
  {
    now := holders;
    if op.Acquire? {
      var h := new Scoped<R>(op.resource);
      now := holders + [h];
    } else if op.MoveConstruct? {
      if op.from < |holders| {
        var h := new Scoped<R>.Empty(blank);
        h.MoveFrom(holders[op.from], log);
        now := holders + [h];
      }
    } else if op.MoveAssign? {
      if op.to < |holders| && op.from < |holders| {
        holders[op.to].MoveFrom(holders[op.from], log);
      }
    } else if op.i < |holders| {
      holders[op.i].Release(log);
    }
  }

  /** How many holders own this resource. */
  function Owners<R(==)>(holders: seq<Holding<R>>, r: R): nat {
    if holders == [] then 0
    else Owners(holders[..|holders| - 1], r) + Owns(holders[|holders| - 1], r)
  }

  function Owns<R(==)>(h: Holding<R>, r: R): nat {
    if h.armed && h.resource == r then 1 else 0
  }

  function Times<R(==)>(log: seq<R>, r: R): nat {
    if log == [] then 0 else Times(log[..|log| - 1], r) + if log[|log| - 1] == r then 1 else 0
  }

  /** Every time a resource was acquired, it is owned by one holder or has been deleted once, never both. */
  ghost predicate Conserved<R>(w: World<R>, r: R) {
    Owners(w.holders, r) + Times(w.ran, r) == Times(w.acquired, r)
  }

  lemma {:induction false} OwnersUpdate<R>(holders: seq<Holding<R>>, i: nat, h: Holding<R>, r: R)
    requires i < |holders|
    ensures Owners(holders[i := h], r) + Owns(holders[i], r) == Owners(holders, r) + Owns(h, r)
  {
    var n := |holders| - 1;
    if i == n {
      assert holders[i := h][..n] == holders[..n];
    } else {
      assert holders[i := h][..n] == holders[..n][i := h];
      OwnersUpdate(holders[..n], i, h, r);
    }
  }

  lemma OwnersPush<R>(holders: seq<Holding<R>>, h: Holding<R>, r: R)
    ensures Owners(holders + [h], r) == Owners(holders, r) + Owns(h, r)
  {
    assert (holders + [h])[..|holders|] == holders;
  }

  lemma TimesPush<R>(log: seq<R>, x: R, r: R)
    ensures Times(log + [x], r) == Times(log, r) + if x == r then 1 else 0
  {
    assert (log + [x])[..|log|] == log;
  }

  lemma DroppedConserves<R>(w: World<R>, i: nat, r: R)
    requires i < |w.holders| && Conserved(w, r)
    ensures Conserved(Dropped(w, i), r) && !Dropped(w, i).holders[i].armed
  {
    OwnersUpdate(w.holders, i, Released(w.holders[i], w.ran).0, r);
    TimesPush(w.ran, w.holders[i].resource, r);
  }

  lemma MovedConserves<R>(w: World<R>, to: nat, from: nat, r: R)
    requires to < |w.holders| && from < |w.holders| && Conserved(w, r)
    ensures Conserved(Moved(w, to, from), r)
  {
    DroppedConserves(w, to, r);
    var d := Dropped(w, to);
    var h := d.holders[from];
    OwnersUpdate(d.holders, to, h, r);
    OwnersUpdate(d.holders[to := h], from, h.(armed := false), r);
  }

  lemma StepConserves<R>(w: World<R>, op: Op<R>, r: R)
    requires Conserved(w, r)
    ensures Conserved(Step(w, op), r)
  {
    match op
    case Acquire(x) =>
      OwnersPush(w.holders, Holding(x, true), r);
      TimesPush(w.acquired, x, r);
    case MoveConstruct(from) =>
      if from < |w.holders| {
        var blank := w.holders[from].(armed := false);
        OwnersPush(w.holders, blank, r);
        MovedConserves(w.(holders := w.holders + [blank]), |w.holders|, from, r);
      }
    case MoveAssign(to, from) =>
      if to < |w.holders| && from < |w.holders| {
        MovedConserves(w, to, from, r);
      }
    case Release(i) =>
      if i < |w.holders| {
        DroppedConserves(w, i, r);
      }
    case Destroy(i) =>
      if i < |w.holders| {
        DroppedConserves(w, i, r);
      }
  }

  lemma {:induction false} RunConserves<R>(w: World<R>, ops: seq<Op<R>>, r: R)
    requires Conserved(w, r)
    ensures Conserved(Run(w, ops), r)
    decreases |ops|
  {
    if ops != [] {
      RunConserves(w, ops[..|ops| - 1], r);
      StepConserves(Run(w, ops[..|ops| - 1]), ops[|ops| - 1], r);
    }
  }

  lemma {:induction false} NothingOwned<R>(holders: seq<Holding<R>>, r: R)
    requires forall i :: 0 <= i < |holders| ==> !holders[i].armed
    ensures Owners(holders, r) == 0
  {
    if holders != [] {
      NothingOwned(holders[..|holders| - 1], r);
    }
  }

  lemma {:induction false} TimesIsCount<R>(log: seq<R>, r: R)
    ensures Times(log, r) == multiset(log)[r]
  {
    if log != [] {
      TimesIsCount(log[..|log| - 1], r);
      assert log == log[..|log| - 1] + [log[|log| - 1]];
    }
  }

  /** After any sequence of operations, the deleter of each resource has run at most as often as the resource
      was acquired, and exactly as often once no holder holds anything. */
  lemma DeletedOnce<R>(ops: seq<Op<R>>, r: R)
    ensures var w := Run(World([], [], []), ops);
            && multiset(w.ran)[r] <= multiset(w.acquired)[r]
            && ((forall i :: 0 <= i < |w.holders| ==> !w.holders[i].armed) ==>
                  multiset(w.ran)[r] == multiset(w.acquired)[r])
  {
    var start: World<R> := World([], [], []);
    RunConserves(start, ops, r);
    var w := Run(start, ops);
    TimesIsCount(w.ran, r);
    TimesIsCount(w.acquired, r);
    if forall i :: 0 <= i < |w.holders| ==> !w.holders[i].armed {
      NothingOwned(w.holders, r);
    }
  }
}

module ScopedEnv {
  import opened Options

  type Env = map<string, string>

  function Lookup(env: Env, name: string): Option<string> {
    if name in env then Some(env[name]) else None
  }

  /** environment::set, or environment::clear when there is no value. */
  function Assign(env: Env, name: string, value: Option<string>): Env {
    match value case Some(v) => env[name := v] case None => env - {name}
  }

  lemma AssignLookup(env: Env, name: string, value: Option<string>, other: string)
    ensures Lookup(Assign(env, name, value), other) == if other == name then value else Lookup(env, other)
  {
  }

  /** A variable with a value, or unset: what a scope asks for, and what it gives back when it ends. */
  datatype Setting = Setting(name: string, value: Option<string>)

  class Environment {
    var variables: Env

    /** Opens a scope in which the variable has this value, or is unset. */
    method Open(name: string, value: Option<string>) returns (saved: Setting)
      modifies this
      ensures saved == Setting(name, if name in old(variables) then Some(old(variables)[name]) else None)
      ensures variables == if value.Some? then old(variables)[name := value.value] else old(variables) - {name}
    {
      var wasSet := name in variables;
      var oldValue := if wasSet then variables[name] else [];
      variables := if value.Some? then variables[name := value.value] else variables - {name};
      saved := Setting(name, if wasSet then Some(oldValue) else None);
    }

    /** Ends a scope. */
    method Restore(saved: Setting)
      modifies this
      ensures variables == if saved.value.Some? then old(variables)[saved.name := saved.value.value]
                           else old(variables) - {saved.name}
    {
      if saved.value.Some? {
        variables := variables[saved.name := saved.value.value];
      } else {
        variables := variables - {saved.name};
      }
    }

    /** Opens one scope after the other. */
    method OpenAll(requests: seq<Setting>) returns (scopes: seq<Setting>)
      modifies this
      ensures (variables, scopes) == Opened(old(variables), requests)
    {
      scopes := [];
      for i := 0 to |requests|
        invariant (variables, scopes) == Opened(old(variables), requests[..i])
      {
        assert requests[..i + 1][..i] == requests[..i];
        var saved := Open(requests[i].name, requests[i].value);
        scopes := scopes + [saved];
      }
      assert requests[..|requests|] == requests;
    }

    /** Ends the scopes in the order given by their numbers. */
    method RestoreAll(scopes: seq<Setting>, order: seq<nat>)
      requires Within(order, |scopes|)
      modifies this
      ensures variables == Closed(old(variables), scopes, order)
    {
      for j := 0 to |order|
        invariant variables == Closed(old(variables), scopes, order[..j])
      {
        assert order[..j + 1][..j] == order[..j];
        Restore(scopes[order[j]]);
      }
      assert order[..|order|] == order;
    }
  }

  predicate Within(order: seq<nat>, n: nat) {
    forall j :: 0 <= j < |order| ==> order[j] < n
  }

  /** The environment and what the scopes saved, once all the scopes are open. */
  function Opened(env: Env, requests: seq<Setting>): (r: (Env, seq<Setting>))
    ensures |r.1| == |requests| && forall i :: 0 <= i < |requests| ==> r.1[i].name == requests[i].name
  {
    if requests == [] then (env, [])
    else
      var (before, scopes) := Opened(env, requests[..|requests| - 1]);
      var r := requests[|requests| - 1];
      (Assign(before, r.name, r.value), scopes + [Setting(r.name, Lookup(before, r.name))])
  }

  function Closed(env: Env, scopes: seq<Setting>, order: seq<nat>): Env
    requires Within(order, |scopes|)
  {
    if order == [] then env
    else
      var s := scopes[order[|order| - 1]];
      Assign(Closed(env, scopes, order[..|order| - 1]), s.name, s.value)
  }

  /** The number of the last request on this variable, None when there is none. */
  function LastOn(requests: seq<Setting>, name: string): (i: Option<nat>)
    ensures i.Some? ==> i.value < |requests| && requests[i.value].name == name
    ensures i.Some? ==> forall j :: i.value < j < |requests| ==> requests[j].name != name
    ensures i.None? ==> forall j :: 0 <= j < |requests| ==> requests[j].name != name
  {
    if requests == [] then None
    else if requests[|requests| - 1].name == name then Some(|requests| - 1)
    else LastOn(requests[..|requests| - 1], name)
  }

  /** The number of the scope on this variable that ends last, None when there is none. */
  function EndsLast(requests: seq<Setting>, order: seq<nat>, name: string): (i: Option<nat>)
    requires Within(order, |requests|)
    ensures i.Some? ==> i.value < |requests| && requests[i.value].name == name
  {
    if order == [] then None
    else if requests[order[|order| - 1]].name == name then Some(order[|order| - 1])
    else EndsLast(requests, order[..|order| - 1], name)
  }

  /** What the last of these requests on the variable asked for, or else the original value. */
  function Before(env: Env, requests: seq<Setting>, name: string): Option<string> {
    match LastOn(requests, name) case Some(j) => requests[j].value case None => Lookup(env, name)
  }

  /** While the scopes are being opened, a variable has what the last request on it asked for. */
  lemma {:induction false} OpenedLookup(env: Env, requests: seq<Setting>, name: string)
    ensures Lookup(Opened(env, requests).0, name) == Before(env, requests, name)
    decreases |requests|
  {
    if requests != [] {
      var init, r := requests[..|requests| - 1], requests[|requests| - 1];
      OpenedLookup(env, init, name);
      AssignLookup(Opened(env, init).0, r.name, r.value, name);
    }
  }

  /** What a scope saves does not depend on the requests after it. */
  lemma SavedFirst(env: Env, requests: seq<Setting>, i: nat)
    requires i < |requests|
    ensures var n := |requests| - 1;
            Opened(env, requests).1[i].value ==
            if i < n then Opened(env, requests[..n]).1[i].value
            else Lookup(Opened(env, requests[..n]).0, requests[n].name)
  {
  }

  /** A scope saves what the request before it on its variable asked for, or else the original value. */
  lemma {:induction false} SavedValue(env: Env, requests: seq<Setting>, i: nat)
    requires i < |requests|
    ensures Opened(env, requests).1[i].value == Before(env, requests[..i], requests[i].name)
    decreases |requests|
  {
    var n := |requests| - 1;
    SavedFirst(env, requests, i);
    if i < n {
      SavedValue(env, requests[..n], i);
      assert requests[..n][..i] == requests[..i];
    } else {
      OpenedLookup(env, requests[..n], requests[i].name);
    }
  }

  /** Whatever the order, a variable ends with what the scope on it that ends last had saved. */
  lemma {:induction false} ClosedLookup(env: Env, scopes: seq<Setting>, order: seq<nat>, name: string)
    requires Within(order, |scopes|)
    ensures Lookup(Closed(env, scopes, order), name) ==
            match EndsLast(scopes, order, name) case Some(i) => scopes[i].value case None => Lookup(env, name)
    decreases |order|
  {
    if order != [] {
      var init, s := order[..|order| - 1], scopes[order[|order| - 1]];
      ClosedLookup(env, scopes, init, name);
      AssignLookup(Closed(env, scopes, init), s.name, s.value, name);
    }
  }

  /** Which scope ends last is a matter of the names alone. */
  lemma {:induction false} SameNamesEndAlike(a: seq<Setting>, b: seq<Setting>, order: seq<nat>, name: string)
    requires |a| == |b| && Within(order, |a|) && forall i :: 0 <= i < |a| ==> a[i].name == b[i].name
    ensures EndsLast(a, order, name) == EndsLast(b, order, name)
    decreases |order|
  {
    if order != [] {
      SameNamesEndAlike(a, b, order[..|order| - 1], name);
    }
  }

  /** Every scope ends. */
  predicate EndsAll(order: seq<nat>, n: nat) {
    Within(order, n) && forall i :: 0 <= i < n ==> i in order
  }

  lemma {:induction false} SomeEndsLast(requests: seq<Setting>, order: seq<nat>, i: nat)
    requires Within(order, |requests|) && i in order
    ensures i < |requests| && EndsLast(requests, order, requests[i].name).Some?
    decreases |order|
  {
    var last := order[|order| - 1];
    if requests[last].name != requests[i].name {
      assert i in order[..|order| - 1];
      SomeEndsLast(requests, order[..|order| - 1], i);
    }
  }

  /** What scope i gives back is the original value: it was the first to be opened on its variable, or the
      request before it on that variable asked for the value that the variable had anyway. */
  predicate GivesBackOriginal(env: Env, requests: seq<Setting>, i: nat)
    requires i < |requests|
  {
    var before := LastOn(requests[..i], requests[i].name);
    before.None? || requests[before.value].value == Lookup(env, requests[i].name)
  }

  /** The exact condition for an order of ending the scopes: the environment comes back if and only if, on
      every variable, the scope that ends last is the one opened first, or the request before it on that
      variable asked for the original value. */
  lemma RestoresWhen(env: Env, requests: seq<Setting>, order: seq<nat>)
    requires EndsAll(order, |requests|)
    ensures Closed(Opened(env, requests).0, Opened(env, requests).1, order) == env <==>
            forall name :: var i := EndsLast(requests, order, name);
                           i.Some? ==> GivesBackOriginal(env, requests, i.value)
  {
    var after := Closed(Opened(env, requests).0, Opened(env, requests).1, order);
    forall name
      ensures var i := EndsLast(requests, order, name);
              Lookup(after, name) == Lookup(env, name) <==> (i.Some? ==> GivesBackOriginal(env, requests, i.value))
    {
      NameRestoredWhen(env, requests, order, name);
    }
    if after != env {
      var name := Difference(after, env);
      assert EndsLast(requests, order, name).Some?;
    }
  }

  lemma NameRestoredWhen(env: Env, requests: seq<Setting>, order: seq<nat>, name: string)
    requires EndsAll(order, |requests|)
    ensures var i := EndsLast(requests, order, name);
            Lookup(Closed(Opened(env, requests).0, Opened(env, requests).1, order), name) == Lookup(env, name)
            <==> (i.Some? ==> GivesBackOriginal(env, requests, i.value))
  {
    var (now, scopes) := Opened(env, requests);
    ClosedLookup(now, scopes, order, name);
    SameNamesEndAlike(scopes, requests, order, name);
    match EndsLast(requests, order, name)
    case Some(i) =>
      SavedValue(env, requests, i);
    case None =>
      OpenedLookup(env, requests, name);
      if LastOn(requests, name).Some? {
        SomeEndsLast(requests, order, LastOn(requests, name).value);
        assert false;
      }
  }

  lemma Difference(a: Env, b: Env) returns (name: string)
    requires a != b
    ensures Lookup(a, name) != Lookup(b, name)
  {
    if exists n :: n in a && n !in b {
      name :| name in a && name !in b;
    } else if exists n :: n in b && n !in a {
      name :| name in b && name !in a;
    } else {
      name :| name in a && name in b && a[name] != b[name];
    }
  }

  /** The reverse of the order of opening. */
  function Reversed(n: nat): (order: seq<nat>)
    ensures |order| == n && forall j :: 0 <= j < n ==> order[j] == n - 1 - j
  {
    seq(n, j requires 0 <= j < n => n - 1 - j)
  }

  /** In the reverse order, the scope that ends last on a variable was the first to be opened on it. */
  lemma {:induction false} FirstEndsLast(requests: seq<Setting>, order: seq<nat>, name: string)
    requires Within(order, |requests|)
    requires forall j, k :: 0 <= j < k < |order| ==> order[k] < order[j]
    ensures var i := EndsLast(requests, order, name);
            i.Some? ==> forall j :: j in order && requests[j].name == name ==> i.value <= j
    decreases |order|
  {
    if order != [] {
      FirstEndsLast(requests, order[..|order| - 1], name);
    }
  }

  lemma InReversed(n: nat, i: nat)
    requires i < n
    ensures i in Reversed(n)
  {
    assert Reversed(n)[n - 1 - i] == i;
  }

  /** Scopes that end in the reverse of the order they were opened in restore the environment, whatever the
      names. */
  lemma NestedScopesRestore(env: Env, requests: seq<Setting>)
    ensures Closed(Opened(env, requests).0, Opened(env, requests).1, Reversed(|requests|)) == env
  {
    var order := Reversed(|requests|);
    forall i | 0 <= i < |requests|
      ensures i in order
    {
      InReversed(|requests|, i);
    }
    forall name | EndsLast(requests, order, name).Some?
      ensures LastOn(requests[..EndsLast(requests, order, name).value], name).None?
    {
      FirstEndsLast(requests, order, name);
    }
    RestoresWhen(env, requests, order);
  }

  /** With distinct names the scopes may end in any order. */
  lemma DistinctScopesRestore(env: Env, requests: seq<Setting>, order: seq<nat>)
    requires forall i, j :: 0 <= i < j < |requests| ==> requests[i].name != requests[j].name
    requires EndsAll(order, |requests|)
    ensures Closed(Opened(env, requests).0, Opened(env, requests).1, order) == env
  {
    RestoresWhen(env, requests, order);
  }

  /** With a repeated name, ending the scopes in the order they were opened does not restore it. */
  lemma RepeatedNamesInOrderDoNotRestore()
    ensures var requests := [Setting("LANG", Some("C")), Setting("LANG", Some("de"))];
            Closed(Opened(map[], requests).0, Opened(map[], requests).1, [0, 1]) != map[]
  {
    var requests := [Setting("LANG", Some("C")), Setting("LANG", Some("de"))];
    var order: seq<nat> := [0, 1];
    assert order[0] == 0 && order[1] == 1;
    assert EndsLast(requests, order, "LANG") == Some(1);
    assert LastOn(requests[..1], "LANG") == Some(0);
    assert !GivesBackOriginal(map[], requests, 1);
    RestoresWhen(map[], requests, order);
  }
}
