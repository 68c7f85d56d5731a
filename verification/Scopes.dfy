/**
  Scopes, and the slots of parameters: the index the compiler emits for a
  parameter is the slot its argument has at run time, although the run-time
  scope gives the slots the parameters' names in reverse order.
 */
module Scopes {
  import opened Sequences
  import opened Words
  import opened Values

  datatype LocalVariable = LocalVariable(index: nat, name: string, value: Option<Value>)

  type Frame = seq<LocalVariable>

  /** The first local of that name. */
  function Find(locals: Frame, name: string): (r: Option<LocalVariable>)
    ensures r.None? <==> forall i :: 0 <= i < |locals| ==> locals[i].name != name
    ensures r.Some? ==> r.value in locals && r.value.name == name
  {
    if locals == [] then None
    else if locals[0].name == name then Some(locals[0])
    else Find(locals[1..], name)
  }

  /** The local of that name in the innermost scope that has one. */
  function FindAll(chain: seq<Frame>, name: string): Option<LocalVariable> {
    if chain == [] then None
    else if Find(chain[0], name).Some? then Find(chain[0], name)
    else FindAll(chain[1..], name)
  }

  lemma {:induction false} FindAt(locals: Frame, i: nat)
    requires i < |locals| && forall j :: 0 <= j < i ==> locals[j].name != locals[i].name
    ensures Find(locals, locals[i].name) == Some(locals[i])
  {
    if i > 0 {
      assert locals[1..][i - 1] == locals[i];
      FindAt(locals[1..], i - 1);
    }
  }

  /** Local `i` of frame `k` is the one meant by the name: no local before it, in its frame or an inner one, has it. */
  predicate Meant(chain: seq<Frame>, name: string, k: nat, i: nat) {
    && k < |chain| && i < |chain[k]| && chain[k][i].name == name
    && (forall j :: 0 <= j < i ==> chain[k][j].name != name)
    && forall h :: 0 <= h < k ==> Lacks(chain[h], name)
  }

  predicate Lacks(locals: Frame, name: string) {
    forall i :: 0 <= i < |locals| ==> locals[i].name != name
  }

  /** What a lookup through the frames of `chain`, the innermost first, has to give. */
  ghost predicate IsMeant(chain: seq<Frame>, name: string, r: Option<LocalVariable>) {
    match r
    case None => forall k :: 0 <= k < |chain| ==> Lacks(chain[k], name)
    case Some(l) => exists k: nat, i: nat :: Meant(chain, name, k, i) && chain[k][i] == l
  }

  lemma {:induction false} FindMeant(locals: Frame, name: string) returns (i: nat)
    ensures Find(locals, name).None? ==> Lacks(locals, name)
    ensures
      Find(locals, name).Some? ==>
        && i < |locals| && locals[i] == Find(locals, name).value && locals[i].name == name
        && forall j :: 0 <= j < i ==> locals[j].name != name
  {
    i := 0;
    if locals != [] && locals[0].name != name {
      var j := FindMeant(locals[1..], name);
      i := j + 1;
      assert forall k :: 0 < k < |locals| ==> locals[k] == locals[1..][k - 1];
    }
  }

  /** A lookup gives the first local of that name in the innermost frame that has one, and nothing if none has. */
  lemma {:induction false} LookupIsMeant(chain: seq<Frame>, name: string)
    ensures IsMeant(chain, name, FindAll(chain, name))
  {
    hide Find;
    if chain != [] {
      var i := FindMeant(chain[0], name);
      if Find(chain[0], name).Some? {
        assert Meant(chain, name, 0, i);
      } else {
        LookupIsMeant(chain[1..], name);
        var r := FindAll(chain[1..], name);
        if r.Some? {
          var k: nat, j: nat :| Meant(chain[1..], name, k, j) && chain[1..][k][j] == r.value;
          assert forall h :: 0 < h < |chain| ==> chain[h] == chain[1..][h - 1];
          assert Meant(chain, name, k + 1, j);
        }
      }
    }
  }

  /** No other result will do. */
  lemma MeantIsUnique(chain: seq<Frame>, name: string, r: Option<LocalVariable>, r': Option<LocalVariable>)
    requires IsMeant(chain, name, r) && IsMeant(chain, name, r')
    ensures r == r'
  {
    if r.Some? && r'.Some? {
      var k: nat, i: nat :| Meant(chain, name, k, i) && chain[k][i] == r.value;
      var k': nat, i': nat :| Meant(chain, name, k', i') && chain[k'][i'] == r'.value;
      assert k == k' && i == i';
    }
  }

  class LocalScope {
    const parent: LocalScope?
    var locals: Frame
    ghost const chain: seq<LocalScope>

    /** `chain` lists this scope and its ancestors. */
    ghost predicate Linked()
      decreases |chain|
    {
      if parent == null then chain == [this] else chain == [this] + parent.chain && parent.Linked()
    }

    ghost function All(): seq<Frame>
      requires Linked()
      reads chain
      decreases |chain|
    {
      assert this in chain;
      if parent == null then [locals]
      else
        assert forall i :: 0 <= i < |parent.chain| ==> chain[i + 1] == parent.chain[i];
        [locals] + parent.All()
    }

    constructor (parent: LocalScope?)
      requires parent != null ==> parent.Linked()
      ensures this.parent == parent && Linked() && locals == []
      ensures All() == if parent == null then [[]] else [[]] + parent.All()
    {
      this.parent := parent;
      locals := [];
      chain := [this] + if parent == null then [] else parent.chain;
    }

    method Lookup(name: string, recursive: bool) returns (r: Option<LocalVariable>)
      requires Linked()
      ensures r == if recursive then FindAll(All(), name) else Find(locals, name)
      ensures IsMeant(if recursive then All() else [locals], name, r)
      decreases |chain|
    {
      var i := 0;
      while i < |locals|
        invariant 0 <= i <= |locals| && Find(locals, name) == Find(locals[i..], name)
      {
        if locals[i].name == name {
          LookupIsMeant([locals], name);
          LookupIsMeant(All(), name);
          return Some(locals[i]);
        }
        assert locals[i..][1..] == locals[i + 1..];
        i := i + 1;
      }
      r := None;
      LookupIsMeant([locals], name);
      LookupIsMeant(All(), name);
      assert All()[0] == locals;
      if recursive && parent != null {
        assert All()[1..] == parent.All();
        r := parent.Lookup(name, true);
      }
    }

    method Has(name: string) returns (b: bool)
      ensures b <==> Find(locals, name).Some?
    {
      b := false;
      for i := 0 to |locals|
        invariant !b && forall j :: 0 <= j < i ==> locals[j].name != name
      {
        if locals[i].name == name { return true; }
      }
    }

    method AddLocal(local: LocalVariable) returns (ok: bool)
      modifies this
      ensures ok <==> Find(old(locals), local.name).None?
      ensures locals == if ok then old(locals) + [local] else old(locals)
    {
      var has := Has(local.name);
      ok := !has;
      if ok {
        locals := locals + [local];
      }
    }

    /** A local without a value takes the new one; a local with a value is kept and the call fails. */
    method Add(name: string, value: Option<Value>) returns (ok: bool)
      requires Linked()
      modifies this
      ensures ok <==> CanTake(old(locals), name)
      ensures locals == With(old(locals), name, value)
    {
      var known := Lookup(name, false);
      if known.None? {
        ok := AddLocal(LocalVariable(|locals|, name, value));
      } else if known.value.value.Some? {
        ok := false;
      } else {
        locals := Updated(locals, name, value);
        ok := true;
      }
    }

    /**
      Adds the locals of another scope, in their order, except native procedures;
      fails, but goes on, when one of them cannot be added.
     */
    method AddScope(scope: LocalScope, natives: set<uword>) returns (ok: bool)
      requires Linked() && scope != this
      modifies this
      ensures ok <==> CanTakeAll(old(locals), scope.locals, natives)
      ensures scope.locals == old(scope.locals)
      ensures locals == WithAll(old(locals), scope.locals, natives)
    {
      hide With, CanTake;
      var numAdded := 0;
      var i := 0;
      assert scope.locals[..0] == [];
      while i < |scope.locals|
        invariant 0 <= i <= |scope.locals| && numAdded <= i && scope.locals == old(scope.locals)
        invariant locals == WithAll(old(locals), scope.locals[..i], natives)
        invariant numAdded == i <==> CanTakeAll(old(locals), scope.locals[..i], natives)
      {
        var local := scope.locals[i];
        assert scope.locals[..i + 1] == scope.locals[..i] + [local];
        WithMore(old(locals), scope.locals[..i], local, natives);
        if local.value.Some? && local.value.value.Proc? && local.value.value.address in natives {
          numAdded := numAdded + 1;
        } else {
          var added := Add(local.name, local.value);
          if added {
            numAdded := numAdded + 1;
          }
        }
        i := i + 1;
      }
      assert scope.locals[..|scope.locals|] == scope.locals;
      ok := numAdded == |scope.locals|;
    }
  }

  /** A name can be given a value when it is new or has none. */
  predicate CanTake(locals: Frame, name: string) {
    Find(locals, name).None? || Find(locals, name).value.value.None?
  }

  /** A new local gets the next index; a local without a value takes it; one with a value is kept. */
  function With(locals: Frame, name: string, value: Option<Value>): Frame {
    if Find(locals, name).None? then locals + [LocalVariable(|locals|, name, value)]
    else if CanTake(locals, name) then Updated(locals, name, value)
    else locals
  }

  function WithAll(locals: Frame, more: Frame, natives: set<uword>): Frame {
    if more == [] then locals
    else
      var before, last := WithAll(locals, more[..|more| - 1], natives), more[|more| - 1];
      if IsNative(last, natives) then before else With(before, last.name, last.value)
  }

  /** Each local is a native procedure or can be added when its turn comes. */
  predicate CanTakeAll(locals: Frame, more: Frame, natives: set<uword>) {
    more == [] ||
    (var init, last := more[..|more| - 1], more[|more| - 1];
     CanTakeAll(locals, init, natives) &&
     (IsNative(last, natives) || CanTake(WithAll(locals, init, natives), last.name)))
  }

  lemma WithMore(locals: Frame, more: Frame, last: LocalVariable, natives: set<uword>)
    ensures
      var before := WithAll(locals, more, natives);
      && WithAll(locals, more + [last], natives) ==
         (if IsNative(last, natives) then before else With(before, last.name, last.value))
      && (CanTakeAll(locals, more + [last], natives) <==>
            CanTakeAll(locals, more, natives) && (IsNative(last, natives) || CanTake(before, last.name)))
  {
    assert (more + [last])[..|more|] == more;
  }

  function Names(locals: Frame): (names: seq<string>)
    ensures |names| == |locals|
  {
    seq(|locals|, i requires 0 <= i < |locals| => locals[i].name)
  }

  function Updated(locals: Frame, name: string, value: Option<Value>): (r: Frame)
    ensures |r| == |locals|
  {
    if locals == [] then []
    else if locals[0].name == name then [locals[0].(value := value)] + locals[1..]
    else [locals[0]] + Updated(locals[1..], name, value)
  }

  /** A local that takes a value is found with it, a new one at the end; every other name is found as before. */
  lemma {:induction false} FoundWith(locals: Frame, name: string, value: Option<Value>, other: string)
    ensures
      var before, after := Find(locals, name), Find(With(locals, name, value), name);
      && after.Some? && after.value.name == name
      && (before.None? ==> after.value == LocalVariable(|locals|, name, value))
      && (before.Some? && before.value.value.None? ==> after.value == before.value.(value := value))
      && (before.Some? && before.value.value.Some? ==> after == before)
    ensures other != name ==> Find(With(locals, name, value), other) == Find(locals, other)
    ensures |With(locals, name, value)| == |locals| + if Find(locals, name).None? then 1 else 0
  {
    var l := LocalVariable(|locals|, name, value);
    if Find(locals, name).None? {
      FindInLonger(locals, l, name);
      FindInLonger(locals, l, other);
    } else if CanTake(locals, name) {
      FindUpdated(locals, name, value, name);
      FindUpdated(locals, name, value, other);
    }
  }

  lemma {:induction false} FindInLonger(locals: Frame, l: LocalVariable, name: string)
    ensures
      Find(locals + [l], name) ==
        if Find(locals, name).Some? then Find(locals, name) else if l.name == name then Some(l) else None
  {
    if locals != [] {
      assert (locals + [l])[1..] == locals[1..] + [l];
      FindInLonger(locals[1..], l, name);
    }
  }

  lemma {:induction false} FindUpdated(locals: Frame, name: string, value: Option<Value>, other: string)
    requires Find(locals, name).Some?
    ensures
      Find(Updated(locals, name, value), other) ==
        if other == name then Some(Find(locals, name).value.(value := value)) else Find(locals, other)
  {
    if locals[0].name != name { FindUpdated(locals[1..], name, value, other); }
  }

  /** Adding two groups of locals is adding the first and then the second. */
  lemma {:induction false} WithGroups(locals: Frame, a: Frame, b: Frame, natives: set<uword>)
    ensures WithAll(locals, a + b, natives) == WithAll(WithAll(locals, a, natives), b, natives)
    ensures
      CanTakeAll(locals, a + b, natives) <==>
        CanTakeAll(locals, a, natives) && CanTakeAll(WithAll(locals, a, natives), b, natives)
  {
    hide With, CanTake;
    if b == [] {
      assert a + b == a;
    } else {
      var init, last := b[..|b| - 1], b[|b| - 1];
      WithGroups(locals, a, init, natives);
      assert a + b == (a + init) + [last] && b == init + [last];
      WithMore(locals, a + init, last, natives);
      WithMore(WithAll(locals, a, natives), init, last, natives);
    }
  }

  /** ... and adding one is adding it by its name, unless it is a native procedure. */
  lemma WithJustOne(locals: Frame, l: LocalVariable, natives: set<uword>)
    ensures WithAll(locals, [], natives) == locals && CanTakeAll(locals, [], natives)
    ensures
      WithAll(locals, [l], natives) ==
        if l.value.Some? && l.value.value.Proc? && l.value.value.address in natives then locals
        else With(locals, l.name, l.value)
  {
    assert [l][..0] == [];
  }

  predicate IsNative(local: LocalVariable, natives: set<uword>) {
    local.value.Some? && local.value.value.Proc? && local.value.value.address in natives
  }

  function Copied(locals: Frame, natives: set<uword>): (r: Frame)
    ensures |r| <= |locals|
  {
    if locals == [] then []
    else
      var before := Copied(locals[..|locals| - 1], natives);
      var last := locals[|locals| - 1];
      if IsNative(last, natives) then before else before + [LocalVariable(|before|, last.name, last.value)]
  }

  lemma {:induction false} CopiedNames(locals: Frame, natives: set<uword>)
    ensures forall l :: l in Copied(locals, natives) ==> exists k :: 0 <= k < |locals| && locals[k].name == l.name
  {
    if locals != [] {
      var init := locals[..|locals| - 1];
      CopiedNames(init, natives);
      forall l | l in Copied(locals, natives) ensures exists k :: 0 <= k < |locals| && locals[k].name == l.name {
        if l in Copied(init, natives) {
          var k :| 0 <= k < |init| && init[k].name == l.name;
          assert locals[k].name == l.name;
        } else {
          assert locals[|locals| - 1].name == l.name;
        }
      }
    }
  }

  /** Adding locals with different names to an empty scope copies them. */
  lemma {:induction false} WithAllIsCopied(locals: Frame, natives: set<uword>)
    requires NoDuplicates(Names(locals))
    ensures WithAll([], locals, natives) == Copied(locals, natives) && CanTakeAll([], locals, natives)
  {
    if locals != [] {
      var init, last := locals[..|locals| - 1], locals[|locals| - 1];
      assert forall i :: 0 <= i < |init| ==> Names(init)[i] == Names(locals)[i];
      WithAllIsCopied(init, natives);
      CopiedNames(init, natives);
      forall l | l in Copied(init, natives) ensures l.name != last.name {
        var k :| 0 <= k < |init| && init[k].name == l.name;
        assert Names(locals)[k] != Names(locals)[|locals| - 1];
      }
    }
  }

  /** Locals whose indices are their positions are copied as they are when none is native. */
  lemma {:induction false} CopiedAsIs(locals: Frame, natives: set<uword>)
    requires forall i :: 0 <= i < |locals| ==> locals[i].index == i && !IsNative(locals[i], natives)
    ensures Copied(locals, natives) == locals
  {
    if locals != [] {
      CopiedAsIs(locals[..|locals| - 1], natives);
    }
  }

  // The scopes of a lambda.

  /** The scope the parser makes: the lambda itself, then its parameters without values. */
  function ParsedLocals(self: string, lambda: uword, params: seq<string>): (r: Frame)
    ensures |r| == |params| + 1
    ensures r[0] == LocalVariable(0, self, Some(Proc(lambda)))
    ensures forall i :: 0 <= i < |params| ==> r[i + 1] == LocalVariable(i + 1, params[i], None)
  {
    [LocalVariable(0, self, Some(Proc(lambda)))]
        + seq(|params|, i requires 0 <= i < |params| => LocalVariable(i + 1, params[i], None))
  }

  /** The scope of a call: the lambda itself, then the arguments in order under the names in reverse order. */
  function RunLocals(self: string, lambda: uword, params: seq<string>, args: seq<Value>): (r: Frame)
    requires |args| == |params|
    ensures |r| == |params| + 1
    ensures r[0] == LocalVariable(0, self, Some(Proc(lambda)))
    ensures forall i :: 0 <= i < |params| ==> r[i + 1] == LocalVariable(i + 1, params[|params| - 1 - i], Some(args[i]))
  {
    [LocalVariable(0, self, Some(Proc(lambda)))] +
    seq(|params|, i requires 0 <= i < |params| => LocalVariable(i + 1, params[|params| - 1 - i], Some(args[i])))
  }

  lemma RunLocalsPrefix(self: string, lambda: uword, params: seq<string>, args: seq<Value>, i: nat)
    requires |args| == |params| && i < |params|
    ensures RunLocals(self, lambda, params, args)[..i + 2] ==
            RunLocals(self, lambda, params, args)[..i + 1]
                + [LocalVariable(i + 1, params[|params| - 1 - i], Some(args[i]))]
  {
  }

  /**
    `Runtime::Call` filling the scope of a call: the parameters are visited in
    reverse, the arguments in order. It fails exactly when two names clash.
   */
  method EnterScope(outer: LocalScope?, self: string, lambda: uword, params: seq<string>, args: seq<Value>)
    returns (scope: LocalScope, ok: bool)
    requires |args| == |params| && (outer != null ==> outer.Linked())
    ensures ok <==> NoDuplicates([self] + params)
    ensures
      ok ==>
        && fresh(scope) && scope.Linked() && scope.parent == outer
        && scope.locals == RunLocals(self, lambda, params, args)
  {
    hide RunLocals, Find, NoDuplicates;
    scope := new LocalScope(outer);
    var all := RunLocals(self, lambda, params, args);
    ok := scope.AddLocal(LocalVariable(0, self, Some(Proc(lambda))));
    NamesSnoc([], LocalVariable(0, self, Some(Proc(lambda))));
    assert all[..1] == [] + [LocalVariable(0, self, Some(Proc(lambda)))];
    var idx := 0;
    while idx < |params|
      invariant 0 <= idx <= |params| && fresh(scope) && scope.Linked() && scope.parent == outer
      invariant scope.locals == all[..idx + 1]
      invariant NoDuplicates(Names(all[..idx + 1]))
    {
      var name := params[|params| - 1 - idx];
      RunLocalsPrefix(self, lambda, params, args, idx);
      var added := scope.AddLocal(LocalVariable(idx + 1, name, Some(args[idx])));
      if !added {
        Clash(self, lambda, params, args, idx);
        return scope, false;
      }
      NamesSnoc(all[..idx + 1], LocalVariable(idx + 1, name, Some(args[idx])));
      idx := idx + 1;
    }
    assert all[..|all|] == all;
    NoClash(self, lambda, params, args);
  }

  lemma Clash(self: string, lambda: uword, params: seq<string>, args: seq<Value>, idx: nat)
    requires |args| == |params| && idx < |params|
    requires Find(RunLocals(self, lambda, params, args)[..idx + 1], params[|params| - 1 - idx]).Some?
    ensures !NoDuplicates([self] + params)
  {
    hide RunLocals, Find;
    var all, names := RunLocals(self, lambda, params, args), [self] + params;
    var j :| 0 <= j < idx + 1 && all[..idx + 1][j].name == params[|params| - 1 - idx];
    RunName(self, lambda, params, args, j);
    assert names[|params| - idx] == params[|params| - 1 - idx];
  }

  lemma NamesSnoc(locals: Frame, local: LocalVariable)
    ensures Find(locals, local.name).None? && NoDuplicates(Names(locals)) ==> NoDuplicates(Names(locals + [local]))
    ensures locals == [] ==> Find(locals, local.name).None? && NoDuplicates(Names(locals))
  {
    var names := Names(locals + [local]);
    assert forall i :: 0 <= i < |locals| ==> names[i] == Names(locals)[i] == locals[i].name;
  }

  /** The place of a slot's name among the declared names. */
  function Place(n: nat, slot: nat): nat {
    if slot == 0 || slot > n then 0 else n - slot + 1
  }

  lemma RunName(self: string, lambda: uword, params: seq<string>, args: seq<Value>, slot: nat)
    requires |args| == |params| && slot <= |params|
    ensures RunLocals(self, lambda, params, args)[slot].name == ([self] + params)[Place(|params|, slot)]
  {
    if slot > 0 {
      var i := slot - 1;
      assert RunLocals(self, lambda, params, args)[i + 1].name == params[|params| - 1 - i];
    }
  }

  lemma NoClash(self: string, lambda: uword, params: seq<string>, args: seq<Value>)
    requires |args| == |params| && NoDuplicates(Names(RunLocals(self, lambda, params, args)))
    ensures NoDuplicates([self] + params)
  {
    hide RunLocals;
    var all, names := Names(RunLocals(self, lambda, params, args)), [self] + params;
    forall i, j | 0 <= i < j < |names| ensures names[i] != names[j] {
      var a, b := Place(|params|, i), Place(|params|, j);
      RunName(self, lambda, params, args, a);
      RunName(self, lambda, params, args, b);
      assert all[a] == names[i] && all[b] == names[j];
    }
  }

  datatype Resolved = Unknown | ConstantValue(value: Value) | Slot(index: nat)

  /**
    How a symbol in an expression is compiled: a local that has a value is that constant,
    any other is loaded from its slot.
   */
  method Resolve(scope: LocalScope, name: string) returns (r: Resolved)
    requires scope.Linked()
    ensures r == ResolvedIn(scope.All(), name)
  {
    var local := scope.Lookup(name, true);
    if local.None? { return Unknown; }
    r := if local.value.value.Some? then ConstantValue(local.value.value.value) else Slot(local.value.index);
  }

  function ResolvedIn(chain: seq<Frame>, name: string): Resolved {
    var local := FindAll(chain, name);
    if local.None? then Unknown
    else if local.value.value.Some? then ConstantValue(local.value.value.value)
    else Slot(local.value.index)
  }

  /** The scope in which the graph builder visits a lambda's body. */
  method BodyScope(outer: LocalScope, parsed: LocalScope, natives: set<uword>) returns (scope: LocalScope)
    requires outer.Linked() && NoDuplicates(Names(parsed.locals))
    ensures fresh(scope) && scope.Linked() && scope.locals == Copied(parsed.locals, natives)
    ensures scope.All() == [scope.locals] + outer.All()
  {
    scope := new LocalScope(outer);
    var ok := scope.AddScope(parsed, natives);
    WithAllIsCopied(parsed.locals, natives);
  }

  /**
    Parameter `i` is compiled to slot `i + 1`, whatever the enclosing scopes hold,
    and the lambda's own name to the lambda itself. At run time that slot holds
    argument `i`; looked up by name, the parameter would be argument `n - 1 - i`.
   */
  lemma ParameterSlots(outer: seq<Frame>, self: string, lambda: uword, params: seq<string>, args: seq<Value>,
      natives: set<uword>, i: nat)
    requires NoDuplicates([self] + params) && |args| == |params| && lambda !in natives && i < |params|
    ensures
      var inner := Copied(ParsedLocals(self, lambda, params), natives);
      var run := RunLocals(self, lambda, params, args);
      && ResolvedIn([inner] + outer, params[i]) == Slot(i + 1)
      && ResolvedIn([inner] + outer, self) == ConstantValue(Proc(lambda))
      && run[i + 1].value == Some(args[i])
      && Find(run, params[i]).Some? && Find(run, params[i]).value.value == Some(args[|params| - 1 - i])
  {
    hide RunLocals, ParsedLocals, Copied, Find, FindAll;
    var parsed := ParsedLocals(self, lambda, params);
    forall j | 0 <= j < |parsed| ensures parsed[j].index == j && !IsNative(parsed[j], natives) {
      if j > 0 {
        var k := j - 1;
        assert parsed[k + 1] == LocalVariable(k + 1, params[k], None);
      }
    }
    CopiedAsIs(parsed, natives);
    CompiledSlot(outer, self, lambda, params, i + 1);
    CompiledSlot(outer, self, lambda, params, 0);
    NamedSlot(self, lambda, params, args, i);
  }

  lemma CompiledSlot(outer: seq<Frame>, self: string, lambda: uword, params: seq<string>, slot: nat)
    requires NoDuplicates([self] + params) && slot <= |params|
    ensures
      var parsed := ParsedLocals(self, lambda, params);
      FindAll([parsed] + outer, parsed[slot].name) == Some(parsed[slot])
  {
    hide ParsedLocals, Find;
    var parsed, names := ParsedLocals(self, lambda, params), [self] + params;
    assert forall j :: 0 <= j <= slot ==> parsed[j].name == names[j];
    FindAt(parsed, slot);
    assert ([parsed] + outer)[0] == parsed;
  }

  lemma NamedSlot(self: string, lambda: uword, params: seq<string>, args: seq<Value>, i: nat)
    requires NoDuplicates([self] + params) && |args| == |params| && i < |params|
    ensures
      var run := RunLocals(self, lambda, params, args);
      Find(run, params[i]) == Some(run[|params| - i])
  {
    hide RunLocals, Find;
    var run, at := RunLocals(self, lambda, params, args), |params| - i;
    RunName(self, lambda, params, args, at);
    forall j | 0 <= j < at ensures run[j].name != run[at].name {
      RunName(self, lambda, params, args, j);
    }
    FindAt(run, at);
  }
}
