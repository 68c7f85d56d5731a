/**
  Macro expansion. Visiting an expression gives the list of expressions that
  replace it, or nothing when it stays as it is. A macro call is visited by
  pushing a scope that binds the parameters to the caller's expressions, visiting
  the macro's body in it, and popping the scope.

  `fuel` bounds how deep macro calls in macro bodies nest.
 */
module Macros {
  import opened Sequences
  import opened Words
  import opened Values

  datatype Expr =
    | Symbol(name: string)
    | Literal(value: Value)
    | CallProc(target: Expr, args: seq<Expr>)
    | BinaryOpExpr(op: BinaryOp, left: Expr, right: Expr)
    | When(test: Expr, actions: seq<Expr>)

  datatype Macro = Macro(params: seq<string>, body: seq<Expr>)

  datatype Bound = AnExpression(e: Expr) | AMacro(m: Macro) | Other

  datatype Local = Local(name: string, value: Bound)

  type Frame = seq<Local>

  /** The innermost frame comes first. */
  type Scope = seq<Frame>

  function Find(f: Frame, name: string): Option<Bound> {
    if f == [] then None
    else if f[0].name == name then Some(f[0].value)
    else Find(f[1..], name)
  }

  function Lookup(s: Scope, name: string): Option<Bound> {
    if s == [] then None
    else if Find(s[0], name).Some? then Find(s[0], name)
    else Lookup(s[1..], name)
  }

  /** What a name means is what it means in the innermost frame that has it. */
  lemma {:induction false} LookupInnermost(s: Scope, name: string)
    ensures Lookup(s, name).None? <==> forall k :: 0 <= k < |s| ==> Find(s[k], name).None?
    ensures
      Lookup(s, name).Some? ==>
        exists k :: 0 <= k < |s| && Find(s[k], name) == Lookup(s, name) && forall h :: 0 <= h < k ==>
            Find(s[h], name).None?
  {
    if s != [] {
      if Find(s[0], name).Some? {
        assert Find(s[0], name) == Lookup(s, name);
      } else {
        LookupInnermost(s[1..], name);
        assert forall k :: 0 < k < |s| ==> s[k] == s[1..][k - 1];
        if Lookup(s[1..], name).Some? {
          var k :| 0 <= k < |s[1..]| && Find(s[1..][k], name) == Lookup(s[1..], name)
            && forall h :: 0 <= h < k ==> Find(s[1..][h], name).None?;
          assert Find(s[k + 1], name) == Lookup(s, name);
        } else {
          assert forall k :: 0 < k < |s| ==> Find(s[k], name).None?;
        }
      }
    }
  }

  /** The names in a frame mean the first local of that name. */
  lemma {:induction false} FindFirst(f: Frame, i: nat)
    requires i < |f| && forall j :: 0 <= j < i ==> f[j].name != f[i].name
    ensures Find(f, f[i].name) == Some(f[i].value)
  {
    if i > 0 {
      assert f[1..][i - 1] == f[i];
      FindFirst(f[1..], i - 1);
    }
  }

  predicate IsMacroCall(s: Scope, e: Expr) {
    && e.CallProc? && e.target.Symbol?
    && Lookup(s, e.target.name).Some? && Lookup(s, e.target.name).value.AMacro?
  }

  function MacroOf(s: Scope, e: Expr): Macro
    requires IsMacroCall(s, e)
  {
    Lookup(s, e.target.name).value.m
  }

  function ArgumentFrame(params: seq<string>, args: seq<Expr>): (f: Frame)
    requires |params| == |args|
    ensures |f| == |params|
  {
    seq(|params|, i requires 0 <= i < |params| => Local(params[i], AnExpression(args[i])))
  }

  /** The first result, or the expression itself. */
  function FirstOr(r: seq<Expr>, e: Expr): Expr {
    if r == [] then e else r[0]
  }

  function AllOr(r: seq<Expr>, e: Expr): seq<Expr> {
    if r == [] then [e] else r
  }

  /** What visiting `e` in scope `s` results in; no results when `e` stays. */
  function Visited(s: Scope, e: Expr, fuel: nat): (r: Outcome<seq<Expr>>)
    decreases fuel, e, 1, 0
  {
    match e
    case Literal(_) => Done([])
    case Symbol(name) =>
      var local := if s == [] then None else Find(s[0], name);
      Done(if local.Some? && local.value.AnExpression? then [local.value.e] else [])
    case BinaryOpExpr(op, left, right) =>
      var l :- Visited(s, left, fuel);
      var r :- Visited(s, right, fuel);
      Done(if l != [] || r != [] then [BinaryOpExpr(op, FirstOr(l, left), FirstOr(r, right))] else [])
    case CallProc(target, args) =>
      if IsMacroCall(s, e) then
        var m := MacroOf(s, e);
        if |m.params| != |args| || !NoDuplicates(m.params) then Crash
        else if fuel == 0 then Timeout
        else VisitedBody([ArgumentFrame(m.params, args)] + s, m.body, |m.body|, fuel - 1)
      else
        var newArgs :- VisitedArgs(s, e, |args|, fuel);
        Done(if newArgs.changed then [CallProc(target, newArgs.list)] else [])
    case When(test, actions) =>
      var t :- Visited(s, test, fuel);
      var newActions :- VisitedActions(s, e, |actions|, fuel);
      var after := if newActions.changed then newActions.list else actions;
      Done(if t != [] || newActions.changed then [When(FirstOr(t, test), after)] else [])
  }

  datatype Changes = Changes(list: seq<Expr>, changed: bool)

  /** An argument is replaced by its first result. */
  function VisitedArgs(s: Scope, e: Expr, n: nat, fuel: nat): Outcome<Changes>
    requires e.CallProc? && n <= |e.args|
    decreases fuel, e, 0, n
  {
    if n == 0 then Done(Changes([], false))
    else
      var before :- VisitedArgs(s, e, n - 1, fuel);
      var r :- Visited(s, e.args[n - 1], fuel);
      Done(Changes(before.list + [FirstOr(r, e.args[n - 1])], before.changed || r != []))
  }

  /** An action is replaced by all its results. */
  function VisitedActions(s: Scope, e: Expr, n: nat, fuel: nat): Outcome<Changes>
    requires e.When? && n <= |e.actions|
    decreases fuel, e, 0, n
  {
    if n == 0 then Done(Changes([], false))
    else
      var before :- VisitedActions(s, e, n - 1, fuel);
      var r :- Visited(s, e.actions[n - 1], fuel);
      Done(Changes(before.list + AllOr(r, e.actions[n - 1]), before.changed || r != []))
  }

  function VisitedBody(s: Scope, body: seq<Expr>, n: nat, fuel: nat): Outcome<seq<Expr>>
    requires n <= |body|
    decreases fuel, body, 0, n
  {
    if n == 0 then Done([])
    else
      var before :- VisitedBody(s, body, n - 1, fuel);
      var r :- Visited(s, body[n - 1], fuel);
      Done(before + AllOr(r, body[n - 1]))
  }

  // Simultaneous substitution.

  /** The expression with every parameter in argument position replaced by its argument; call targets stay. */
  function Subst(params: seq<string>, args: seq<Expr>, e: Expr): Expr
    requires |params| == |args|
    decreases e, 1, 0
  {
    match e
    case Literal(_) => e
    case Symbol(name) => if name in params then args[IndexOf(params, name)] else e
    case BinaryOpExpr(op, left, right) => BinaryOpExpr(op, Subst(params, args, left), Subst(params, args, right))
    case CallProc(target, es) => CallProc(target, SubstAll(params, args, es))
    case When(test, actions) => When(Subst(params, args, test), SubstAll(params, args, actions))
  }

  function SubstAll(params: seq<string>, args: seq<Expr>, es: seq<Expr>): (r: seq<Expr>)
    requires |params| == |args|
    ensures |r| == |es|
    decreases es, 0
  {
    if es == [] then [] else SubstAll(params, args, es[..|es| - 1]) + [Subst(params, args, es[|es| - 1])]
  }

  function IndexOf(names: seq<string>, name: string): (i: nat)
    requires name in names
    ensures i < |names| && names[i] == name
  {
    if names[0] == name then 0 else 1 + IndexOf(names[1..], name)
  }

  /** No call in the expression is a macro call. */
  predicate NoMacroCalls(s: Scope, e: Expr) {
    match e
    case CallProc(_, args) => !IsMacroCall(s, e) && forall i :: 0 <= i < |args| ==> NoMacroCalls(s, args[i])
    case BinaryOpExpr(_, left, right) => NoMacroCalls(s, left) && NoMacroCalls(s, right)
    case When(test, actions) => NoMacroCalls(s, test) && forall i :: 0 <= i < |actions| ==> NoMacroCalls(s, actions[i])
    case _ => true
  }

  lemma {:induction false} FindArgument(params: seq<string>, args: seq<Expr>, name: string)
    requires |params| == |args|
    ensures Find(ArgumentFrame(params, args), name) ==
            if name in params then Some(AnExpression(args[IndexOf(params, name)])) else None
  {
    if params != [] {
      assert ArgumentFrame(params, args)[1..] == ArgumentFrame(params[1..], args[1..]);
      FindArgument(params[1..], args[1..], name);
    }
  }

  /** `r` says that `e` stays or is replaced by `e'`. */
  predicate Gives(r: Outcome<seq<Expr>>, e: Expr, e': Expr) {
    r.Done? && (r.value == [e'] || (r.value == [] && e == e'))
  }

  lemma {:induction false} VisitSubstitutes(s: Scope, params: seq<string>, args: seq<Expr>, e: Expr, fuel: nat)
    requires |params| == |args| && NoMacroCalls([ArgumentFrame(params, args)] + s, e)
    ensures Gives(Visited([ArgumentFrame(params, args)] + s, e, fuel), e, Subst(params, args, e))
    decreases e, 1, 0
  {
    hide ArgumentFrame;
    var inner := [ArgumentFrame(params, args)] + s;
    assert inner[0] == ArgumentFrame(params, args);
    match e
    case Literal(_) =>
    case Symbol(name) => FindArgument(params, args, name);
    case BinaryOpExpr(_, left, right) =>
      VisitSubstitutes(s, params, args, left, fuel);
      VisitSubstitutes(s, params, args, right, fuel);
    case CallProc(_, es) =>
      ArgsSubstitute(s, params, args, e, |es|, fuel);
      assert es[..|es|] == es;
    case When(test, actions) =>
      VisitSubstitutes(s, params, args, test, fuel);
      ActionsSubstitute(s, params, args, e, |actions|, fuel);
      assert actions[..|actions|] == actions;
  }

  lemma {:induction false} ArgsSubstitute(s: Scope, params: seq<string>, args: seq<Expr>, e: Expr, n: nat, fuel: nat)
    requires e.CallProc? && n <= |e.args| && |params| == |args| && NoMacroCalls([ArgumentFrame(params, args)] + s, e)
    ensures var r := VisitedArgs([ArgumentFrame(params, args)] + s, e, n, fuel);
            r.Done? && r.value.list == SubstAll(params, args, e.args[..n])
                && (!r.value.changed ==> r.value.list == e.args[..n])
    decreases e, 0, n
  {
    hide ArgumentFrame, Subst, Visited;
    if n > 0 {
      ArgsSubstitute(s, params, args, e, n - 1, fuel);
      VisitSubstitutes(s, params, args, e.args[n - 1], fuel);
      assert e.args[..n][..n - 1] == e.args[..n - 1] && e.args[..n] == e.args[..n - 1] + [e.args[n - 1]];
    }
  }

  lemma {:induction false} ActionsSubstitute(s: Scope, params: seq<string>, args: seq<Expr>, e: Expr, n: nat, fuel: nat)
    requires e.When? && n <= |e.actions| && |params| == |args| && NoMacroCalls([ArgumentFrame(params, args)] + s, e)
    ensures var r := VisitedActions([ArgumentFrame(params, args)] + s, e, n, fuel);
            r.Done? && r.value.list == SubstAll(params, args, e.actions[..n])
                && (!r.value.changed ==> r.value.list == e.actions[..n])
    decreases e, 0, n
  {
    hide ArgumentFrame, Subst, Visited;
    if n > 0 {
      ActionsSubstitute(s, params, args, e, n - 1, fuel);
      VisitSubstitutes(s, params, args, e.actions[n - 1], fuel);
      assert e.actions[..n][..n - 1] == e.actions[..n - 1] && e.actions[..n] == e.actions[..n - 1] + [e.actions[n - 1]];
    }
  }

  lemma {:induction false} BodySubstitutes(s: Scope, params: seq<string>, args: seq<Expr>, body: seq<Expr>, n: nat,
      fuel: nat)
    requires |params| == |args| && n <= |body|
    requires forall i :: 0 <= i < |body| ==> NoMacroCalls([ArgumentFrame(params, args)] + s, body[i])
    ensures VisitedBody([ArgumentFrame(params, args)] + s, body, n, fuel) == Done(SubstAll(params, args, body[..n]))
  {
    hide ArgumentFrame, Subst, Visited;
    if n > 0 {
      BodySubstitutes(s, params, args, body, n - 1, fuel);
      VisitSubstitutes(s, params, args, body[n - 1], fuel);
      assert body[..n][..n - 1] == body[..n - 1] && body[..n] == body[..n - 1] + [body[n - 1]];
    }
  }

  /**
    One expansion of a macro whose body has no macro calls is the simultaneous
    substitution of the caller's expressions for the parameters. The inserted
    expressions are not looked into, whatever names they contain.
   */
  lemma ExpansionIsSubstitution(s: Scope, e: Expr, fuel: nat)
    requires IsMacroCall(s, e) && |MacroOf(s, e).params| == |e.args| && NoDuplicates(MacroOf(s, e).params) && fuel > 0
    requires forall i :: 0 <= i < |MacroOf(s, e).body| ==>
               NoMacroCalls([ArgumentFrame(MacroOf(s, e).params, e.args)] + s, MacroOf(s, e).body[i])
    ensures Visited(s, e, fuel) == Done(SubstAll(MacroOf(s, e).params, e.args, MacroOf(s, e).body))
  {
    var m := MacroOf(s, e);
    BodySubstitutes(s, m.params, e.args, m.body, |m.body|, fuel - 1);
    assert m.body[..|m.body|] == m.body;
  }

  // Macro calls in the bodies of macros.

  /** The name stands in argument position somewhere in the expression. */
  predicate Occurs(name: string, e: Expr) {
    match e
    case Literal(_) => false
    case Symbol(n) => n == name
    case BinaryOpExpr(_, left, right) => Occurs(name, left) || Occurs(name, right)
    case CallProc(_, args) => exists i :: 0 <= i < |args| && Occurs(name, args[i])
    case When(test, actions) => Occurs(name, test) || exists i :: 0 <= i < |actions| && Occurs(name, actions[i])
  }

  /** Every name that occurs gets the same from both lists of arguments. */
  ghost predicate SameWhereUsed(params: seq<string>, a: seq<Expr>, b: seq<Expr>, e: Expr)
    requires |params| == |a| == |b|
  {
    forall i :: 0 <= i < |params| && Occurs(params[i], e) ==> a[i] == b[i]
  }

  ghost predicate SameWhereUsedIn(params: seq<string>, a: seq<Expr>, b: seq<Expr>, es: seq<Expr>)
    requires |params| == |a| == |b|
  {
    forall j :: 0 <= j < |es| ==> SameWhereUsed(params, a, b, es[j])
  }

  lemma IndexUnique(names: seq<string>, i: nat)
    requires NoDuplicates(names) && i < |names|
    ensures IndexOf(names, names[i]) == i
  {
  }

  /** Two substitutions agree exactly when they agree on the names that occur. */
  lemma {:induction false} SubstSameIff(params: seq<string>, a: seq<Expr>, b: seq<Expr>, e: Expr)
    requires |params| == |a| == |b| && NoDuplicates(params)
    ensures Subst(params, a, e) == Subst(params, b, e) <==> SameWhereUsed(params, a, b, e)
    decreases e, 1
  {
    match e
    case Literal(_) =>
    case Symbol(name) =>
      if name in params {
        forall i | 0 <= i < |params| && params[i] == name ensures i == IndexOf(params, name) {
          IndexUnique(params, i);
        }
      }
    case BinaryOpExpr(_, left, right) =>
      SubstSameIff(params, a, b, left);
      SubstSameIff(params, a, b, right);
    case CallProc(_, es) =>
      SubstAllSameIff(params, a, b, es);
      CallUses(params, a, b, e);
    case When(test, actions) =>
      SubstSameIff(params, a, b, test);
      SubstAllSameIff(params, a, b, actions);
      WhenUses(params, a, b, e);
  }

  lemma {:induction false} SubstAllSameIff(params: seq<string>, a: seq<Expr>, b: seq<Expr>, es: seq<Expr>)
    requires |params| == |a| == |b| && NoDuplicates(params)
    ensures SubstAll(params, a, es) == SubstAll(params, b, es) <==> SameWhereUsedIn(params, a, b, es)
    decreases es, 0
  {
    hide Subst, SameWhereUsed;
    if es != [] {
      var init, last := es[..|es| - 1], es[|es| - 1];
      SubstAllSameIff(params, a, b, init);
      SubstSameIff(params, a, b, last);
      var sa, sb := SubstAll(params, a, es), SubstAll(params, b, es);
      assert sa == SubstAll(params, a, init) + [Subst(params, a, last)];
      assert sb == SubstAll(params, b, init) + [Subst(params, b, last)];
      assert sa[..|init|] == SubstAll(params, a, init) && sb[..|init|] == SubstAll(params, b, init);
      assert sa[|init|] == Subst(params, a, last) && sb[|init|] == Subst(params, b, last);
      assert forall j :: 0 <= j < |init| ==> es[j] == init[j];
    }
  }

  lemma CallUses(params: seq<string>, a: seq<Expr>, b: seq<Expr>, e: Expr)
    requires |params| == |a| == |b| && e.CallProc?
    ensures SameWhereUsed(params, a, b, e) <==> SameWhereUsedIn(params, a, b, e.args)
  {
  }

  lemma WhenUses(params: seq<string>, a: seq<Expr>, b: seq<Expr>, e: Expr)
    requires |params| == |a| == |b| && e.When?
    ensures
      SameWhereUsed(params, a, b, e) <==>
        SameWhereUsed(params, a, b, e.test) && SameWhereUsedIn(params, a, b, e.actions)
  {
  }

  /** A call in scope `s` of the macro `m`, whose body has no macro calls, that can be expanded. */
  predicate Flat(s: Scope, e: Expr, m: Macro): (b: bool)
    ensures b ==> e.CallProc? && |m.params| == |e.args|
  {
    && IsMacroCall(s, e) && MacroOf(s, e) == m && |m.params| == |e.args| && NoDuplicates(m.params)
    && forall i :: 0 <= i < |m.body| ==> NoMacroCalls([ArgumentFrame(m.params, e.args)] + s, m.body[i])
  }

  /**
    A macro call `e` in the body of another macro, whose parameters are bound to
    `args`. Its own arguments are inserted as they stand there, with the outer
    parameters in them: that is what substituting the outer arguments first and
    expanding then would give if and only if every argument that the inner macro
    uses stays the same under the outer substitution.
   */
  lemma NestedExpansionIff(s: Scope, params: seq<string>, args: seq<Expr>, e: Expr, m: Macro, fuel: nat)
    requires |params| == |args| && fuel > 0
    requires Flat([ArgumentFrame(params, args)] + s, e, m) && Flat(s, Subst(params, args, e), m)
    ensures
      var nested := Visited([ArgumentFrame(params, args)] + s, e, fuel);
      && nested == Done(SubstAll(m.params, e.args, m.body))
      && (nested == Visited(s, Subst(params, args, e), fuel) <==>
            forall i, j :: 0 <= i < |m.params| && 0 <= j < |m.body| && Occurs(m.params[i], m.body[j]) ==>
              Subst(params, args, e.args[i]) == e.args[i])
  {
    hide ArgumentFrame, NoMacroCalls, Occurs, Visited;
    var substituted := Subst(params, args, e);
    SubstEach(params, args, e.args);
    ExpansionIsSubstitution([ArgumentFrame(params, args)] + s, e, fuel);
    ExpansionIsSubstitution(s, substituted, fuel);
    SubstAllSameIff(m.params, e.args, substituted.args, m.body);
  }

  lemma {:induction false} SubstEach(params: seq<string>, args: seq<Expr>, es: seq<Expr>)
    requires |params| == |args|
    ensures forall i :: 0 <= i < |es| ==> SubstAll(params, args, es)[i] == Subst(params, args, es[i])
    decreases |es|
  {
    hide Subst;
    if es != [] { SubstEach(params, args, es[..|es| - 1]); }
  }

  /** The outer parameter `a`, passed on to a macro whose body is its parameter `b`, survives the expansion. */
  lemma OuterNameSurvives(fuel: nat)
    requires fuel > 0
    ensures
      var inner := Macro(["b"], [Expr.Symbol("b")]);
      var outer := Macro(["a"], [CallProc(Expr.Symbol("inner"), [Expr.Symbol("a")])]);
      var s := [[Local("inner", AMacro(inner)), Local("outer", AMacro(outer))]];
      Visited(s, CallProc(Expr.Symbol("outer"), [Literal(Long(1))]), fuel + 1) == Done([Expr.Symbol("a")])
  {
    var inner := Macro(["b"], [Expr.Symbol("b")]);
    var outer := Macro(["a"], [CallProc(Expr.Symbol("inner"), [Expr.Symbol("a")])]);
    var s := [[Local("inner", AMacro(inner)), Local("outer", AMacro(outer))]];
    var call := CallProc(Expr.Symbol("outer"), [Literal(Long(1))]);
    var frame := ArgumentFrame(outer.params, call.args);
    var nested := outer.body[0];
    assert frame == [Local("a", AnExpression(Literal(Long(1))))];
    assert Find(frame, "inner") == None by { assert frame[1..] == []; }
    assert ([frame] + s)[1..] == s && ([frame] + s)[0] == frame;
    assert Lookup([frame] + s, "inner") == Some(AMacro(inner));
    ExpansionIsSubstitution([frame] + s, nested, fuel);
    assert SubstAll(["b"], [Expr.Symbol("a")], []) == [];
    assert inner.body[..0] == [];
    assert SubstAll(["b"], [Expr.Symbol("a")], inner.body) == [Expr.Symbol("a")];
    assert s[0][1..] == [Local("outer", AMacro(outer))] && "inner"[0] != "outer"[0];
    assert Find(s[0][1..], "outer") == Some(AMacro(outer));
    assert Lookup(s, "outer") == Some(AMacro(outer));
    assert VisitedBody([frame] + s, outer.body, 0, fuel) == Done([]);
    assert VisitedBody([frame] + s, outer.body, 1, fuel) == Done([] + [Expr.Symbol("a")]);
  }

  // When there is something to expand.

  /** Somewhere the visitor looks there is a call of a macro that is not empty, or a name bound to an expression. */
  predicate Expandable(s: Scope, e: Expr) {
    match e
    case Literal(_) => false
    case Symbol(name) => s != [] && Find(s[0], name).Some? && Find(s[0], name).value.AnExpression?
    case BinaryOpExpr(_, left, right) => Expandable(s, left) || Expandable(s, right)
    case CallProc(_, args) =>
      if IsMacroCall(s, e) then MacroOf(s, e).body != []
      else exists i :: 0 <= i < |args| && Expandable(s, args[i])
    case When(test, actions) => Expandable(s, test) || exists i :: 0 <= i < |actions| && Expandable(s, actions[i])
  }

  /** A visit has results exactly when there is something to expand. */
  lemma {:induction false} ResultsIffExpandable(s: Scope, e: Expr, fuel: nat)
    requires Visited(s, e, fuel).Done?
    ensures Visited(s, e, fuel).value != [] <==> Expandable(s, e)
    decreases e, 1, 0
  {
    match e
    case Literal(_) =>
    case Symbol(_) =>
    case BinaryOpExpr(_, left, right) =>
      ResultsIffExpandable(s, left, fuel);
      ResultsIffExpandable(s, right, fuel);
    case CallProc(_, args) =>
      if IsMacroCall(s, e) {
        var m := MacroOf(s, e);
        BodyGrows([ArgumentFrame(m.params, args)] + s, m.body, |m.body|, fuel - 1);
      } else {
        ArgsIffExpandable(s, e, |args|, fuel);
      }
    case When(test, actions) =>
      ResultsIffExpandable(s, test, fuel);
      ActionsIffExpandable(s, e, |actions|, fuel);
  }

  lemma {:induction false} BodyGrows(s: Scope, body: seq<Expr>, n: nat, fuel: nat)
    requires n <= |body| && VisitedBody(s, body, n, fuel).Done?
    ensures |VisitedBody(s, body, n, fuel).value| >= n
  {
    if n > 0 { BodyGrows(s, body, n - 1, fuel); }
  }

  lemma {:induction false} ArgsIffExpandable(s: Scope, e: Expr, n: nat, fuel: nat)
    requires e.CallProc? && n <= |e.args| && VisitedArgs(s, e, n, fuel).Done?
    ensures VisitedArgs(s, e, n, fuel).value.changed <==> exists i :: 0 <= i < n && Expandable(s, e.args[i])
    decreases e, 0, n
  {
    if n > 0 {
      ArgsIffExpandable(s, e, n - 1, fuel);
      ResultsIffExpandable(s, e.args[n - 1], fuel);
    }
  }

  lemma {:induction false} ActionsIffExpandable(s: Scope, e: Expr, n: nat, fuel: nat)
    requires e.When? && n <= |e.actions| && VisitedActions(s, e, n, fuel).Done?
    ensures VisitedActions(s, e, n, fuel).value.changed <==> exists i :: 0 <= i < n && Expandable(s, e.actions[i])
    decreases e, 0, n
  {
    if n > 0 {
      ActionsIffExpandable(s, e, n - 1, fuel);
      ResultsIffExpandable(s, e.actions[n - 1], fuel);
    }
  }

  /** Without macro calls and names bound to expressions nothing is expanded, whatever the fuel. */
  lemma {:induction false} PlainStays(s: Scope, e: Expr, fuel: nat)
    requires NoMacroCalls(s, e) && (s != [] ==> forall i :: 0 <= i < |s[0]| ==> !s[0][i].value.AnExpression?)
    ensures Visited(s, e, fuel) == Done([])
    decreases e, 1, 0
  {
    match e
    case Literal(_) =>
    case Symbol(name) => if s != [] { FindPlain(s[0], name); }
    case BinaryOpExpr(_, left, right) =>
      PlainStays(s, left, fuel);
      PlainStays(s, right, fuel);
    case CallProc(_, args) => PlainArgs(s, e, |args|, fuel);
    case When(test, actions) =>
      PlainStays(s, test, fuel);
      PlainActions(s, e, |actions|, fuel);
  }

  lemma {:induction false} FindPlain(f: Frame, name: string)
    requires forall i :: 0 <= i < |f| ==> !f[i].value.AnExpression?
    ensures Find(f, name).Some? ==> !Find(f, name).value.AnExpression?
  {
    if f != [] { FindPlain(f[1..], name); }
  }

  lemma {:induction false} PlainArgs(s: Scope, e: Expr, n: nat, fuel: nat)
    requires e.CallProc? && n <= |e.args| && NoMacroCalls(s, e)
    requires s != [] ==> forall i :: 0 <= i < |s[0]| ==> !s[0][i].value.AnExpression?
    ensures VisitedArgs(s, e, n, fuel).Done? && !VisitedArgs(s, e, n, fuel).value.changed
    decreases e, 0, n
  {
    if n > 0 {
      PlainArgs(s, e, n - 1, fuel);
      PlainStays(s, e.args[n - 1], fuel);
    }
  }

  lemma {:induction false} PlainActions(s: Scope, e: Expr, n: nat, fuel: nat)
    requires e.When? && n <= |e.actions| && NoMacroCalls(s, e)
    requires s != [] ==> forall i :: 0 <= i < |s[0]| ==> !s[0][i].value.AnExpression?
    ensures VisitedActions(s, e, n, fuel).Done? && !VisitedActions(s, e, n, fuel).value.changed
    decreases e, 0, n
  {
    if n > 0 {
      PlainActions(s, e, n - 1, fuel);
      PlainStays(s, e.actions[n - 1], fuel);
    }
  }

  // Expanding a body.

  function ReplaceExpressionAt(body: seq<Expr>, idx: nat, es: seq<Expr>): seq<Expr>
    requires idx < |body|
  {
    body[..idx] + es + body[idx + 1..]
  }

  predicate CanExpand(s: Scope, e: Expr, fuel: nat) {
    Visited(s, e, fuel).Done? && Visited(s, e, fuel).value != []
  }

  /** The body with element `i` replaced by the results of visiting it. */
  function ExpandedAt(s: Scope, body: seq<Expr>, i: nat, fuel: nat): seq<Expr>
    requires i < |body| && CanExpand(s, body[i], fuel)
  {
    ReplaceExpressionAt(body, i, Visited(s, body[i], fuel).value)
  }

  /** Expanding one element after the other, `n` times and in any order, makes `b` of `a`. */
  ghost predicate Expands(s: Scope, a: seq<Expr>, b: seq<Expr>, n: nat, fuel: nat)
    decreases n
  {
    if n == 0 then a == b
    else exists i :: 0 <= i < |a| && CanExpand(s, a[i], fuel) && Expands(s, ExpandedAt(s, a, i, fuel), b, n - 1, fuel)
  }

  /** No element has results. */
  ghost predicate IsExpanded(s: Scope, body: seq<Expr>, fuel: nat) {
    forall i :: 0 <= i < |body| ==> Visited(s, body[i], fuel) == Done([])
  }

  /** Expanding `a` in at most `rounds` steps makes `b`, in which nothing is left to expand. */
  ghost predicate ExpandsTo(s: Scope, a: seq<Expr>, b: seq<Expr>, rounds: nat, fuel: nat) {
    IsExpanded(s, b, fuel) && exists n :: 0 <= n <= rounds && Expands(s, a, b, n, fuel)
  }

  lemma {:induction false} ExpandsThen(s: Scope, a: seq<Expr>, b: seq<Expr>, n: nat, i: nat, fuel: nat)
    requires Expands(s, a, b, n, fuel) && i < |b| && CanExpand(s, b[i], fuel)
    ensures Expands(s, a, ExpandedAt(s, b, i, fuel), n + 1, fuel)
    decreases n
  {
    hide CanExpand, ExpandedAt;
    if n == 0 {
      assert Expands(s, ExpandedAt(s, a, i, fuel), ExpandedAt(s, b, i, fuel), 0, fuel);
    } else {
      var j :| 0 <= j < |a| && CanExpand(s, a[j], fuel) && Expands(s, ExpandedAt(s, a, j, fuel), b, n - 1, fuel);
      ExpandsThen(s, ExpandedAt(s, a, j, fuel), b, n - 1, i, fuel);
    }
  }

  /** Where element `i` is after element `j` has been replaced by `n` others. */
  function Shifted(i: nat, j: nat, n: nat): nat
    requires i != j
  {
    if i < j then i else i - 1 + n
  }

  lemma OthersStay(s: Scope, body: seq<Expr>, i: nat, j: nat, fuel: nat)
    requires i < |body| && j < |body| && i != j && CanExpand(s, body[j], fuel)
    ensures
      var i' := Shifted(i, j, |Visited(s, body[j], fuel).value|);
      i' < |ExpandedAt(s, body, j, fuel)| && ExpandedAt(s, body, j, fuel)[i'] == body[i]
  {
    hide Visited;
  }

  /** Two elements can be expanded in either order. */
  lemma ExpandBoth(s: Scope, body: seq<Expr>, i: nat, j: nat, fuel: nat)
    requires i < j < |body| && CanExpand(s, body[i], fuel) && CanExpand(s, body[j], fuel)
    ensures
      var i', j' := Shifted(i, j, |Visited(s, body[j], fuel).value|), Shifted(j, i, |Visited(s, body[i], fuel).value|);
      var left, right := ExpandedAt(s, body, i, fuel), ExpandedAt(s, body, j, fuel);
      && j' < |left| && left[j'] == body[j] && i' < |right| && right[i'] == body[i]
      && ExpandedAt(s, left, j', fuel) == ExpandedAt(s, right, i', fuel)
  {
    hide Visited;
    OthersStay(s, body, i, j, fuel);
    OthersStay(s, body, j, i, fuel);
    var es, fs := Visited(s, body[i], fuel).value, Visited(s, body[j], fuel).value;
    var left, right := ExpandedAt(s, body, i, fuel), ExpandedAt(s, body, j, fuel);
    assert left[..j - 1 + |es|] == body[..i] + es + body[i + 1..j] && left[j + |es|..] == body[j + 1..];
    assert right[..i] == body[..i] && right[i + 1..] == body[i + 1..j] + fs + body[j + 1..];
  }

  /** An element that can be expanded can as well be expanded first. */
  lemma {:induction false} ExpandFirst(s: Scope, a: seq<Expr>, b: seq<Expr>, n: nat, i: nat, fuel: nat)
    requires Expands(s, a, b, n, fuel) && IsExpanded(s, b, fuel) && i < |a| && CanExpand(s, a[i], fuel)
    ensures n > 0 && Expands(s, ExpandedAt(s, a, i, fuel), b, n - 1, fuel)
    decreases n
  {
    hide ExpandedAt, Visited;
    assert n > 0;
    var j :| 0 <= j < |a| && CanExpand(s, a[j], fuel) && Expands(s, ExpandedAt(s, a, j, fuel), b, n - 1, fuel);
    if i != j {
      var i', j' := Shifted(i, j, |Visited(s, a[j], fuel).value|), Shifted(j, i, |Visited(s, a[i], fuel).value|);
      if i < j { ExpandBoth(s, a, i, j, fuel); } else { ExpandBoth(s, a, j, i, fuel); }
      ExpandFirst(s, ExpandedAt(s, a, j, fuel), b, n - 1, i', fuel);
      assert Expands(s, ExpandedAt(s, ExpandedAt(s, a, i, fuel), j', fuel), b, n - 2, fuel);
    }
  }

  /** Whatever has been expanded so far, the expanded body is still reached, in what is left of its steps. */
  lemma {:induction false} ExpandsOn(s: Scope, a: seq<Expr>, c: seq<Expr>, k: nat, b: seq<Expr>, n: nat, fuel: nat)
    requires Expands(s, a, c, k, fuel) && Expands(s, a, b, n, fuel) && IsExpanded(s, b, fuel)
    ensures k <= n && Expands(s, c, b, n - k, fuel)
    decreases k
  {
    hide ExpandedAt, CanExpand, IsExpanded;
    if k > 0 {
      var i :| 0 <= i < |a| && CanExpand(s, a[i], fuel) && Expands(s, ExpandedAt(s, a, i, fuel), c, k - 1, fuel);
      ExpandFirst(s, a, b, n, i, fuel);
      ExpandsOn(s, ExpandedAt(s, a, i, fuel), c, k - 1, b, n - 1, fuel);
    }
  }

  /**
    The order in which elements are expanded does not matter: a body has at most
    one expansion that leaves nothing to expand, and every order takes the same
    number of steps to it.
   */
  lemma ExpansionIsUnique(s: Scope, a: seq<Expr>, b: seq<Expr>, n: nat, c: seq<Expr>, k: nat, fuel: nat)
    requires Expands(s, a, b, n, fuel) && IsExpanded(s, b, fuel)
    requires Expands(s, a, c, k, fuel) && IsExpanded(s, c, fuel)
    ensures b == c && n == k
  {
    hide IsExpanded;
    ExpandsOn(s, a, c, k, b, n, fuel);
    ExpandsOn(s, a, b, n, c, k, fuel);
  }

  /** An element whose visit does not end well is never got rid of. */
  lemma {:induction false} FailureStays(s: Scope, a: seq<Expr>, b: seq<Expr>, n: nat, i: nat, fuel: nat)
    requires Expands(s, a, b, n, fuel) && i < |a| && !Visited(s, a[i], fuel).Done?
    ensures !IsExpanded(s, b, fuel)
    decreases n
  {
    hide ExpandedAt, Visited;
    if n > 0 {
      var j :| 0 <= j < |a| && CanExpand(s, a[j], fuel) && Expands(s, ExpandedAt(s, a, j, fuel), b, n - 1, fuel);
      OthersStay(s, a, i, j, fuel);
      FailureStays(s, ExpandedAt(s, a, j, fuel), b, n - 1, Shifted(i, j, |Visited(s, a[j], fuel).value|), fuel);
    }
  }

  lemma OnlyExpansion(s: Scope, a: seq<Expr>, c: seq<Expr>, k: nat, rounds: nat, fuel: nat)
    requires Expands(s, a, c, k, fuel) && k <= rounds && IsExpanded(s, c, fuel)
    ensures forall b :: ExpandsTo(s, a, b, rounds, fuel) <==> b == c
  {
    forall b | ExpandsTo(s, a, b, rounds, fuel) ensures b == c {
      var n :| 0 <= n <= rounds && Expands(s, a, b, n, fuel);
      ExpansionIsUnique(s, a, b, n, c, k, fuel);
    }
  }

  lemma NeverExpanded(s: Scope, a: seq<Expr>, c: seq<Expr>, k: nat, i: nat, rounds: nat, fuel: nat)
    requires Expands(s, a, c, k, fuel) && i < |c| && !Visited(s, c[i], fuel).Done?
    ensures forall b :: !ExpandsTo(s, a, b, rounds, fuel)
  {
    hide IsExpanded, Visited;
    forall b ensures !ExpandsTo(s, a, b, rounds, fuel) {
      if ExpandsTo(s, a, b, rounds, fuel) {
        var n :| 0 <= n <= rounds && Expands(s, a, b, n, fuel);
        ExpandsOn(s, a, c, k, b, n, fuel);
        FailureStays(s, c, b, n - k, i, fuel);
      }
    }
  }

  lemma MoreSteps(s: Scope, a: seq<Expr>, c: seq<Expr>, rounds: nat, i: nat, fuel: nat)
    requires Expands(s, a, c, rounds, fuel) && i < |c| && CanExpand(s, c[i], fuel)
    ensures forall b :: !ExpandsTo(s, a, b, rounds, fuel)
  {
    hide IsExpanded, CanExpand;
    forall b ensures !ExpandsTo(s, a, b, rounds, fuel) {
      if ExpandsTo(s, a, b, rounds, fuel) {
        var n :| 0 <= n <= rounds && Expands(s, a, b, n, fuel);
        ExpandsOn(s, a, c, rounds, b, n, fuel);
        ExpandFirst(s, c, b, n - rounds, i, fuel);
      }
    }
  }

  /** Nothing binds a name to an expression, and no call in the body is a macro call. */
  predicate IsPlain(s: Scope, body: seq<Expr>) {
    && (s != [] ==> forall i :: 0 <= i < |s[0]| ==> !s[0][i].value.AnExpression?)
    && forall i :: 0 <= i < |body| ==> NoMacroCalls(s, body[i])
  }

  lemma NothingToExpand(s: Scope, body: seq<Expr>, fuel: nat)
    ensures Expands(s, body, body, 0, fuel)
    ensures IsPlain(s, body) ==> forall rounds: nat :: ExpandsTo(s, body, body, rounds, fuel)
    ensures IsExpanded(s, body, fuel) ==> forall i :: 0 <= i < |body| ==> !Expandable(s, body[i])
  {
    hide NoMacroCalls, Visited, Expandable;
    assert Expands(s, body, body, 0, fuel);
    if IsPlain(s, body) {
      forall i | 0 <= i < |body| ensures Visited(s, body[i], fuel) == Done([]) {
        PlainStays(s, body[i], fuel);
      }
    }
    forall i | 0 <= i < |body| && Visited(s, body[i], fuel).Done?
      ensures Visited(s, body[i], fuel).value != [] <==> Expandable(s, body[i])
    {
      ResultsIffExpandable(s, body[i], fuel);
    }
  }

  // Where the results of a macro call go.

  /** Nothing in the expression is replaced: it has no macro calls, and no name is bound to an expression. */
  predicate Stays(s: Scope, e: Expr) {
    NoMacroCalls(s, e) && (s != [] ==> forall i :: 0 <= i < |s[0]| ==> !s[0][i].value.AnExpression?)
  }

  /** The list with place `i` filled by `results`, unless there are none. */
  function Spliced(es: seq<Expr>, i: nat, results: seq<Expr>): (r: seq<Expr>)
    requires i < |es|
    ensures results != [] ==> r == es[..i] + results + es[i + 1..]
    ensures results == [] ==> r == es
  {
    if results == [] then es else es[..i] + results + es[i + 1..]
  }

  lemma SplicedLonger(es: seq<Expr>, i: nat, results: seq<Expr>, last: Expr)
    requires i < |es|
    ensures Spliced(es + [last], i, results) == Spliced(es, i, results) + [last]
  {
    assert (es + [last])[..i] == es[..i] && (es + [last])[i + 1..] == es[i + 1..] + [last];
  }

  lemma SplicedLast(es: seq<Expr>, e: Expr, results: seq<Expr>)
    ensures Spliced(es + [e], |es|, results) == es + AllOr(results, e)
  {
    assert (es + [e])[..|es|] == es && (es + [e])[|es| + 1..] == [];
  }

  /** A macro call with the wrong number of arguments, or of a macro two of whose parameters have one name, crashes. */
  lemma BadMacroCall(s: Scope, e: Expr, fuel: nat)
    requires IsMacroCall(s, e) && (|MacroOf(s, e).params| != |e.args| || !NoDuplicates(MacroOf(s, e).params))
    ensures Visited(s, e, fuel) == Crash
  {
  }

  /**
    A body with one macro call, whose results need no more expanding, is fully
    expanded by putting them in its place in their order.
   */
  lemma BodyCallExpands(s: Scope, body: seq<Expr>, i: nat, m: Macro, fuel: nat)
    requires i < |body| && Flat(s, body[i], m) && m.body != [] && fuel > 0
    requires forall j :: 0 <= j < |body| && j != i ==> Stays(s, body[j])
    requires forall j :: 0 <= j < |m.body| ==> Stays(s, Subst(m.params, body[i].args, m.body[j]))
    ensures ExpandsTo(s, body, Spliced(body, i, SubstAll(m.params, body[i].args, m.body)), 1, fuel)
  {
    hide Visited, NoMacroCalls, Subst, ArgumentFrame, Flat;
    var results := SubstAll(m.params, body[i].args, m.body);
    var expanded := Spliced(body, i, results);
    FlatVisit(s, body[i], m, fuel);
    SubstEach(m.params, body[i].args, m.body);
    forall j | 0 <= j < |expanded| ensures Visited(s, expanded[j], fuel) == Done([]) {
      if j < i {
        assert expanded[j] == body[j];
      } else if j < i + |results| {
        assert expanded[j] == results[j - i];
      } else {
        assert expanded[j] == body[j - |results| + 1];
      }
      PlainStays(s, expanded[j], fuel);
    }
    assert ExpandedAt(s, body, i, fuel) == expanded;
    assert Expands(s, expanded, expanded, 0, fuel);
    assert Expands(s, body, expanded, 1, fuel);
  }

  lemma FlatVisit(s: Scope, e: Expr, m: Macro, fuel: nat)
    requires Flat(s, e, m) && fuel > 0
    ensures Visited(s, e, fuel) == Done(SubstAll(m.params, e.args, m.body))
    ensures |SubstAll(m.params, e.args, m.body)| == |m.body|
  {
    ExpansionIsSubstitution(s, e, fuel);
  }

  /**
    A macro call among the actions of a `when` is replaced by all of the macro's
    body, in its place; a call of an empty macro stays.
   */
  lemma WhenSplices(s: Scope, e: Expr, i: nat, m: Macro, fuel: nat)
    requires e.When? && i < |e.actions| && Flat(s, e.actions[i], m) && fuel > 0 && Stays(s, e.test)
    requires forall j :: 0 <= j < |e.actions| && j != i ==> Stays(s, e.actions[j])
    ensures
      Visited(s, e, fuel) ==
        Done(if m.body == [] then []
             else [When(e.test, Spliced(e.actions, i, SubstAll(m.params, e.actions[i].args, m.body)))])
  {
    hide Visited, NoMacroCalls, Subst, ArgumentFrame;
    FlatVisit(s, e.actions[i], m, fuel);
    PlainStays(s, e.test, fuel);
    ActionsSplice(s, e, i, m, |e.actions|, fuel);
    WhenVisited(s, e, fuel);
    var a := e.actions;
    assert a[..|a|] == a;
  }

  lemma WhenVisited(s: Scope, e: Expr, fuel: nat)
    requires e.When? && Visited(s, e.test, fuel) == Done([]) && VisitedActions(s, e, |e.actions|, fuel).Done?
    ensures
      var r := VisitedActions(s, e, |e.actions|, fuel).value;
      Visited(s, e, fuel) == Done(if r.changed then [When(e.test, r.list)] else [])
  {
  }

  lemma {:induction false} ActionsSplice(s: Scope, e: Expr, i: nat, m: Macro, n: nat, fuel: nat)
    requires e.When? && i < |e.actions| && Flat(s, e.actions[i], m) && fuel > 0 && n <= |e.actions|
    requires forall j :: 0 <= j < |e.actions| && j != i ==> Stays(s, e.actions[j])
    ensures
      var results := SubstAll(m.params, e.actions[i].args, m.body);
      VisitedActions(s, e, n, fuel) ==
        Done(Changes(if n <= i then e.actions[..n] else Spliced(e.actions[..n], i, results), n > i && results != []))
    decreases n
  {
    hide Visited, NoMacroCalls, Subst, SubstAll, Spliced, ArgumentFrame, Flat;
    var a := e.actions;
    if n > 0 {
      ActionsSplice(s, e, i, m, n - 1, fuel);
      assert a[..n] == a[..n - 1] + [a[n - 1]];
      var results := SubstAll(m.params, a[i].args, m.body);
      if n - 1 == i {
        FlatVisit(s, a[i], m, fuel);
        SplicedLast(a[..i], a[i], results);
      } else {
        PlainStays(s, a[n - 1], fuel);
        if n - 1 > i { SplicedLonger(a[..n - 1], i, results, a[n - 1]); }
      }
    } else {
      assert a[..0] == [];
    }
  }

  /** A macro call among the arguments of a call is replaced by the first expression of the macro's body. */
  lemma ArgumentTakesFirst(s: Scope, e: Expr, i: nat, m: Macro, fuel: nat)
    requires e.CallProc? && !IsMacroCall(s, e) && i < |e.args| && Flat(s, e.args[i], m) && fuel > 0
    requires forall j :: 0 <= j < |e.args| && j != i ==> Stays(s, e.args[j])
    ensures
      Visited(s, e, fuel) ==
        Done(if m.body == [] then []
             else [CallProc(e.target, e.args[i := Subst(m.params, e.args[i].args, m.body[0])])])
  {
    hide NoMacroCalls, Subst, ArgumentFrame, Flat;
    ArgsTakeFirst(s, e, i, m, |e.args|, fuel);
    var a := e.args;
    assert a[..|a|] == a;
  }

  lemma {:induction false} ArgsTakeFirst(s: Scope, e: Expr, i: nat, m: Macro, n: nat, fuel: nat)
    requires e.CallProc? && i < |e.args| && Flat(s, e.args[i], m) && fuel > 0 && n <= |e.args|
    requires forall j :: 0 <= j < |e.args| && j != i ==> Stays(s, e.args[j])
    ensures
      VisitedArgs(s, e, n, fuel) ==
        Done(Changes(if n <= i || m.body == [] then e.args[..n]
                     else e.args[..n][i := Subst(m.params, e.args[i].args, m.body[0])], n > i && m.body != []))
    decreases n
  {
    hide Visited, NoMacroCalls, Subst, ArgumentFrame;
    var a := e.args;
    if n > 0 {
      ArgsTakeFirst(s, e, i, m, n - 1, fuel);
      assert a[..n] == a[..n - 1] + [a[n - 1]];
      if n - 1 == i {
        FlatVisit(s, a[i], m, fuel);
        SubstEach(m.params, a[i].args, m.body);
        if m.body != [] {
          var first := Subst(m.params, a[i].args, m.body[0]);
          assert a[..n][i := first] == a[..i] + [first];
        }
      } else {
        PlainStays(s, a[n - 1], fuel);
        if n - 1 > i && m.body != [] {
          var first := Subst(m.params, a[i].args, m.body[0]);
          assert a[..n][i := first] == a[..n - 1][i := first] + [a[n - 1]];
        }
      }
    }
  }

  /** The same for the operands of a binary operator and the test of a `when`. */
  lemma OperandTakesFirst(s: Scope, op: BinaryOp, call: Expr, other: Expr, m: Macro, fuel: nat)
    requires Flat(s, call, m) && m.body != [] && fuel > 0 && Stays(s, other)
    ensures
      var first := Subst(m.params, call.args, m.body[0]);
      && Visited(s, BinaryOpExpr(op, call, other), fuel) == Done([BinaryOpExpr(op, first, other)])
      && Visited(s, BinaryOpExpr(op, other, call), fuel) == Done([BinaryOpExpr(op, other, first)])
      && Visited(s, When(call, []), fuel) == Done([When(first, [])])
  {
    hide NoMacroCalls, Subst, ArgumentFrame;
    FlatVisit(s, call, m, fuel);
    SubstEach(m.params, call.args, m.body);
    PlainStays(s, other, fuel);
    assert VisitedActions(s, When(call, []), 0, fuel) == Done(Changes([], false));
  }

  /**
    A macro call at place `i` of a macro's body is replaced by all of the inner
    macro's body; around it the outer one is expanded by substitution.
   */
  lemma BodySplices(s: Scope, e: Expr, i: nat, m: Macro, fuel: nat)
    requires IsMacroCall(s, e) && |MacroOf(s, e).params| == |e.args| && NoDuplicates(MacroOf(s, e).params) && fuel > 1
    requires
      var outer, inner := MacroOf(s, e), [ArgumentFrame(MacroOf(s, e).params, e.args)] + s;
      && i < |outer.body| && Flat(inner, outer.body[i], m)
      && forall j :: 0 <= j < |outer.body| && j != i ==> NoMacroCalls(inner, outer.body[j])
    ensures
      var outer := MacroOf(s, e);
      var results := SubstAll(m.params, outer.body[i].args, m.body);
      Visited(s, e, fuel) ==
        Done(SubstAll(outer.params, e.args, outer.body[..i]) + (if results == [] then [outer.body[i]] else results)
             + SubstAll(outer.params, e.args, outer.body[i + 1..]))
  {
    hide NoMacroCalls, Subst, SubstAll, ArgumentFrame, Flat, VisitedBody;
    var outer := MacroOf(s, e);
    var inner := [ArgumentFrame(outer.params, e.args)] + s;
    var before, call, after := outer.body[..i], outer.body[i], outer.body[i + 1..];
    BodySubstitutes(s, outer.params, e.args, before, |before|, fuel - 1);
    BodySubstitutes(s, outer.params, e.args, after, |after|, fuel - 1);
    assert before[..|before|] == before && after[..|after|] == after;
    FlatVisit(inner, call, m, fuel - 1);
    BodyOfOne(inner, call, fuel - 1);
    BodyConcat(inner, before, [call], |before| + 1, fuel - 1);
    BodyConcat(inner, before + [call], after, |outer.body|, fuel - 1);
    assert before + [call] + after == outer.body;
  }

  lemma BodyOfOne(s: Scope, e: Expr, fuel: nat)
    ensures Visited(s, e, fuel).Done? ==> VisitedBody(s, [e], 1, fuel) == Done(AllOr(Visited(s, e, fuel).value, e))
  {
    hide Visited;
    assert VisitedBody(s, [e], 0, fuel) == Done([]);
    assert VisitedBody(s, [e], 1, fuel).Done? == Visited(s, e, fuel).Done?;
    if Visited(s, e, fuel).Done? { assert [] + AllOr(Visited(s, e, fuel).value, e) ==
        AllOr(Visited(s, e, fuel).value, e); }
  }

  lemma {:induction false} BodyConcat(s: Scope, a: seq<Expr>, b: seq<Expr>, n: nat, fuel: nat)
    requires |a| <= n <= |a + b| && VisitedBody(s, a, |a|, fuel).Done? && VisitedBody(s, b, n - |a|, fuel).Done?
    ensures
      VisitedBody(s, a + b, n, fuel) ==
        Done(VisitedBody(s, a, |a|, fuel).value + VisitedBody(s, b, n - |a|, fuel).value)
    decreases n
  {
    hide Visited;
    if n == |a| {
      BodyPrefix(s, a, b, n, fuel);
      assert VisitedBody(s, a, n, fuel).value + [] == VisitedBody(s, a, n, fuel).value;
    } else {
      BodyConcat(s, a, b, n - 1, fuel);
      var before, last := VisitedBody(s, a, |a|, fuel).value, b[n - |a| - 1];
      assert (a + b)[n - 1] == last;
      var r := AllOr(Visited(s, last, fuel).value, last);
      var rest := VisitedBody(s, b, n - |a| - 1, fuel).value;
      assert before + (rest + r) == before + rest + r;
    }
  }

  lemma {:induction false} BodyPrefix(s: Scope, a: seq<Expr>, b: seq<Expr>, n: nat, fuel: nat)
    requires n <= |a|
    ensures VisitedBody(s, a + b, n, fuel) == VisitedBody(s, a, n, fuel)
  {
    hide Visited;
    if n > 0 { BodyPrefix(s, a, b, n - 1, fuel); }
  }

  // The expander.

  class MacroExpander {
    var scope: Scope

    constructor (scope: Scope)
      ensures this.scope == scope
    {
      this.scope := scope;
    }

    method PushScope(frame: Frame)
      modifies this
      ensures scope == [frame] + old(scope)
    {
      scope := [frame] + scope;
    }

    method PopScope()
      requires scope != []
      modifies this
      ensures scope == old(scope)[1..]
    {
      scope := scope[1..];
    }

    /** Visits an expression; the scope is the same afterwards. */
    method Visit(e: Expr, fuel: nat) returns (r: Outcome<seq<Expr>>)
      modifies this
      ensures r == Visited(old(scope), e, fuel)
      ensures r.Done? ==> scope == old(scope)
      decreases fuel, e, 1
    {
      match e
      case Literal(_) =>
        r := Done([]);
      case Symbol(name) =>
        var local := if scope == [] then None else Find(scope[0], name);
        r := Done(if local.Some? && local.value.AnExpression? then [local.value.e] else []);
      case BinaryOpExpr(op, left, right) =>
        var l := Visit(left, fuel);
        if !l.Done? { return l; }
        var rr := Visit(right, fuel);
        if !rr.Done? { return rr; }
        var changed := l.value != [] || rr.value != [];
        r := Done(if changed then [BinaryOpExpr(op, FirstOr(l.value, left), FirstOr(rr.value, right))] else []);
      case CallProc(_, _) =>
        r := VisitCallProc(e, fuel);
      case When(_, _) =>
        r := VisitWhen(e, fuel);
    }

    method VisitCallProc(e: Expr, fuel: nat) returns (r: Outcome<seq<Expr>>)
      requires e.CallProc?
      modifies this
      ensures r == Visited(old(scope), e, fuel)
      ensures r.Done? ==> scope == old(scope)
      decreases fuel, e, 0
    {
      if IsMacroCall(scope, e) {
        var m := MacroOf(scope, e);
        if |m.params| != |e.args| || !NoDuplicates(m.params) { return Crash; }
        if fuel == 0 { return Timeout; }
        PushScope(ArgumentFrame(m.params, e.args));
        ghost var inner := scope;
        var body: seq<Expr> := [];
        var idx := 0;
        while idx < |m.body|
          invariant 0 <= idx <= |m.body| && scope == inner && VisitedBody(inner, m.body, idx, fuel - 1) == Done(body)
        {
          var results := Visit(m.body[idx], fuel - 1);
          if !results.Done? {
            BodyFails(inner, m.body, idx, |m.body|, fuel - 1);
            return results;
          }
          body := body + AllOr(results.value, m.body[idx]);
          idx := idx + 1;
        }
        PopScope();
        return Done(body);
      }
      var newArgs: seq<Expr>, changed := [], false;
      var idx := 0;
      while idx < |e.args|
        invariant 0 <= idx <= |e.args| && scope == old(scope)
        invariant VisitedArgs(scope, e, idx, fuel) == Done(Changes(newArgs, changed))
      {
        var results := Visit(e.args[idx], fuel);
        if !results.Done? {
          ArgsFail(old(scope), e, idx, |e.args|, fuel);
          return results;
        }
        newArgs := newArgs + [FirstOr(results.value, e.args[idx])];
        changed := changed || results.value != [];
        idx := idx + 1;
      }
      r := Done(if changed then [CallProc(e.target, newArgs)] else []);
    }

    method VisitWhen(e: Expr, fuel: nat) returns (r: Outcome<seq<Expr>>)
      requires e.When?
      modifies this
      ensures r == Visited(old(scope), e, fuel)
      ensures r.Done? ==> scope == old(scope)
      decreases fuel, e, 0
    {
      var t := Visit(e.test, fuel);
      if !t.Done? { return t; }
      var newActions: seq<Expr>, changed := [], false;
      var idx := 0;
      while idx < |e.actions|
        invariant 0 <= idx <= |e.actions| && scope == old(scope)
        invariant VisitedActions(scope, e, idx, fuel) == Done(Changes(newActions, changed))
      {
        var results := Visit(e.actions[idx], fuel);
        if !results.Done? {
          ActionsFail(old(scope), e, idx, |e.actions|, fuel);
          return results;
        }
        newActions := newActions + AllOr(results.value, e.actions[idx]);
        changed := changed || results.value != [];
        idx := idx + 1;
      }
      var after := if changed then newActions else e.actions;
      r := Done(if t.value != [] || changed then [When(FirstOr(t.value, e.test), after)] else []);
    }

    /**
      Expands the body of a lambda in place: each expression is replaced by its
      results until it has none, the index running over the growing body.
      `rounds` bounds the number of replacements. It returns the one expansion the
      body has, whatever the order of replacing, if it has one within the bound.
     */
    method ExpandAllInLambda(body: seq<Expr>, locals: Frame, fuel: nat, rounds: nat) returns (r: Outcome<seq<Expr>>)
      modifies this
      ensures forall b :: r == Done(b) <==> ExpandsTo([locals] + old(scope), body, b, rounds, fuel)
      ensures
        r.Done? ==>
          scope == old(scope) && forall i :: 0 <= i < |r.value| ==> !Expandable([locals] + old(scope), r.value[i])
      ensures IsPlain([locals] + old(scope), body) ==> r == Done(body)
    {
      hide Visited, NoMacroCalls, Expandable, Expands, ExpandsTo, IsPlain;
      PushScope(locals);
      ghost var inner := scope;
      var current := body;
      var left := rounds;
      var idx := 0;
      NothingToExpand(inner, body, fuel);
      while idx < |current|
        invariant 0 <= idx <= |current| && scope == inner && inner == [locals] + old(scope) && 0 <= left <= rounds
        invariant Expands(inner, body, current, rounds - left, fuel)
        invariant forall i :: 0 <= i < idx ==> Visited(inner, current[i], fuel) == Done([])
        decreases left, |current| - idx
      {
        var results := Visit(current[idx], fuel);
        if !results.Done? {
          NeverExpanded(inner, body, current, rounds - left, idx, rounds, fuel);
          return if results.Crash? then Crash else Timeout;
        }
        if results.value == [] {
          idx := idx + 1;
        } else {
          if left == 0 {
            MoreSteps(inner, body, current, rounds, idx, fuel);
            return Timeout;
          }
          ExpandsThen(inner, body, current, rounds - left, idx, fuel);
          left := left - 1;
          current := ReplaceExpressionAt(current, idx, results.value);
        }
      }
      OnlyExpansion(inner, body, current, rounds - left, rounds, fuel);
      NothingToExpand(inner, current, fuel);
      PopScope();
      r := Done(current);
    }
  }

  lemma {:induction false} BodyFails(s: Scope, body: seq<Expr>, i: nat, n: nat, fuel: nat)
    requires i < n <= |body| && VisitedBody(s, body, i, fuel).Done? && !Visited(s, body[i], fuel).Done?
    ensures VisitedBody(s, body, n, fuel) == if Visited(s, body[i], fuel).Crash? then Crash else Timeout
  {
    if i < n - 1 { BodyFails(s, body, i, n - 1, fuel); }
  }

  lemma {:induction false} ArgsFail(s: Scope, e: Expr, i: nat, n: nat, fuel: nat)
    requires e.CallProc? && i < n <= |e.args| && VisitedArgs(s, e, i, fuel).Done? && !Visited(s, e.args[i], fuel).Done?
    ensures VisitedArgs(s, e, n, fuel) == if Visited(s, e.args[i], fuel).Crash? then Crash else Timeout
  {
    if i < n - 1 { ArgsFail(s, e, i, n - 1, fuel); }
  }

  lemma {:induction false} ActionsFail(s: Scope, e: Expr, i: nat, n: nat, fuel: nat)
    requires e.When? && i < n <= |e.actions| && VisitedActions(s, e, i, fuel).Done?
    requires !Visited(s, e.actions[i], fuel).Done?
    ensures VisitedActions(s, e, n, fuel) == if Visited(s, e.actions[i], fuel).Crash? then Crash else Timeout
  {
    if i < n - 1 { ActionsFail(s, e, i, n - 1, fuel); }
  }
}
