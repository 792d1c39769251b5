/** Rewriting a statement onto the attached control schema (src/merge/control_db.py:154-269). */
module ControlDb {
  import opened Columns

  const CONTROL_DB_SCHEMA := "control"
  const MAIN_SCHEMA := "main"

  // ----- syntax -----

  /** A table occurrence; `db` is empty when the name is not qualified. */
  datatype TableName = TableName(db: string, name: string, alias: Option<string>)
  {
    /** The name columns refer to it by. */
    function Exposed(): string { if alias.Some? then alias.value else name }
  }

  datatype Expr = TableRef(table: TableName) | Node(op: string, withs: seq<Cte>, children: seq<Expr>)

  datatype Cte = Cte(name: string, body: Expr)

  datatype Statement =
    | Select(body: Expr)
    | Dml(op: string, withs: seq<Cte>, target: TableName, children: seq<Expr>)
    | Unsupported

  // ----- SQLite's scopes -----

  datatype Scope = Root | Block(ctes: seq<Cte>, outer: Scope)

  /** Identifiers are compared without case. */
  function Fold(name: string): string {
    seq(|name|, i requires 0 <= i < |name| => if 'A' <= name[i] <= 'Z' then name[i] + 32 as char else name[i])
  }

  function FindIn(ctes: seq<Cte>, name: string): (r: Option<Expr>)
    ensures r.Some? <==> exists i :: 0 <= i < |ctes| && Fold(ctes[i].name) == Fold(name)
  {
    if ctes == [] then None
    else if Fold(ctes[0].name) == Fold(name) then Some(ctes[0].body)
    else
      assert forall i :: 1 <= i < |ctes| ==> ctes[i] == ctes[1..][i - 1];
      FindIn(ctes[1..], name)
  }

  datatype Bound = Bound(body: Expr, scope: Scope)

  /** The innermost common table expression of that name, with the scope its body is in. */
  function Find(scope: Scope, name: string): Option<Bound> {
    match scope
    case Root => None
    case Block(ctes, outer) =>
      var here := FindIn(ctes, name);
      if here.Some? then Some(Bound(here.value, scope)) else Find(outer, name)
  }

  function Enter(scope: Scope, withs: seq<Cte>): Scope { Block(withs, scope) }

  // ----- meaning -----

  type Relation = set<seq<int>>

  datatype Databases = Databases(main: map<string, Relation>, control: map<string, Relation>)

  datatype Source = Source(exposed: string, value: Relation)

  /** What each operator makes of its sources. */
  type Operators = (string, seq<Source>) -> Relation

  datatype Side = Main | Control

  /** A qualified name means its schema; an unqualified one means main unless only control has it. */
  function SideOf(dbs: Databases, t: TableName): Side {
    if t.db == CONTROL_DB_SCHEMA || (t.db == "" && Fold(t.name) !in dbs.main) then Control else Main
  }

  function Contents(dbs: Databases, t: TableName): Relation {
    var tables := if SideOf(dbs, t).Main? then dbs.main else dbs.control;
    if Fold(t.name) in tables then tables[Fold(t.name)] else {}
  }

  /** Common table expressions may refer to each other in any order, so each reference costs fuel. */
  function Eval(ops: Operators, dbs: Databases, scope: Scope, e: Expr, fuel: nat): Relation
    decreases fuel, e
  {
    match e
    case TableRef(t) =>
      var bound := if t.db == "" then Find(scope, t.name) else None;
      if bound.None? then Contents(dbs, t)
      else if fuel == 0 then {}
      else Eval(ops, dbs, bound.value.scope, bound.value.body, fuel - 1)
    case Node(op, withs, children) =>
      ops(op, EvalAll(ops, dbs, Enter(scope, withs), children, fuel))
  }

  function EvalAll(ops: Operators, dbs: Databases, scope: Scope, es: seq<Expr>, fuel: nat): seq<Source>
    decreases fuel, es
  {
    if es == [] then []
    else [Source(ExposedBy(es[0]), Eval(ops, dbs, scope, es[0], fuel))] + EvalAll(ops, dbs, scope, es[1..], fuel)
  }

  function ExposedBy(e: Expr): string { if e.TableRef? then e.table.Exposed() else "" }

  /** An operator sees all its sources in order, each under the name columns refer to it by. */
  lemma {:induction false} EvalAllAt(ops: Operators, dbs: Databases, scope: Scope, es: seq<Expr>, fuel: nat, i: nat)
    requires i < |es|
    ensures |EvalAll(ops, dbs, scope, es, fuel)| == |es|
    ensures EvalAll(ops, dbs, scope, es, fuel)[i].value == Eval(ops, dbs, scope, es[i], fuel)
    ensures es[i].TableRef? ==>
      EvalAll(ops, dbs, scope, es, fuel)[i].exposed == if es[i].table.alias.Some? then es[i].table.alias.value else es[i].table.name
  {
    hide Eval;
    if |es| > 1 { EvalAllAt(ops, dbs, scope, es[1..], fuel, if i == 0 then 0 else i - 1); }
  }

  /** A table is that of its schema; without one it is main's, or control's where main has none of that name. */
  lemma TableFound(dbs: Databases, t: TableName)
    requires Fold(t.name) in dbs.main && Fold(t.name) in dbs.control
    ensures t.db == "main" || t.db == "" ==> Contents(dbs, t) == dbs.main[Fold(t.name)]
    ensures t.db == "control" ==> Contents(dbs, t) == dbs.control[Fold(t.name)]
    ensures t.db == "" ==> Contents(dbs.(main := dbs.main - {Fold(t.name)}), t) == dbs.control[Fold(t.name)]
  {
  }

  /** A statement reads a relation, or writes a table from its sources. */
  datatype Meaning =
    | Reads(value: Relation)
    | Writes(side: Side, table: string, exposed: string, op: string, sources: seq<Source>)
    | Unknown

  function EvalStatement(ops: Operators, dbs: Databases, s: Statement, fuel: nat): Meaning {
    match s
    case Select(body) => Reads(Eval(ops, dbs, Root, body, fuel))
    case Dml(op, withs, target, children) =>
      Writes(SideOf(dbs, target), Fold(target.name), target.Exposed(), op, EvalAll(ops, dbs, Enter(Root, withs), children, fuel))
    case Unsupported => Unknown
  }

  // ----- the rewrite -----

  function Names(withs: seq<Cte>): set<string> { set c | c in withs :: c.name }

  predicate Rewritable(t: TableName, persistent: set<string>) {
    t.name in persistent && (t.db == "" || t.db == MAIN_SCHEMA || t.db == CONTROL_DB_SCHEMA)
  }

  /** `_qualify_table_reference`: the table keeps its name as its alias. */
  function Qualified(t: TableName): TableName {
    TableName(CONTROL_DB_SCHEMA, t.name, if t.alias.Some? then t.alias else Some(t.name))
  }

  predicate IsCteReference(t: TableName, visible: set<string>) {
    t.db == "" && t.name in visible
  }

  function Rewrite(e: Expr, visible: set<string>, persistent: set<string>): Option<Expr>
    decreases e, 0
  {
    match e
    case TableRef(t) =>
      if IsCteReference(t, visible) then Some(e)
      else if Rewritable(t, persistent) then Some(TableRef(Qualified(t)))
      else None
    case Node(op, withs, children) =>
      var inner := visible + Names(withs);
      var newWiths := RewriteCtes(withs, inner, persistent);
      var newChildren := RewriteAll(children, inner, persistent);
      if newWiths.Some? && newChildren.Some? then Some(Node(op, newWiths.value, newChildren.value)) else None
  }

  function RewriteAll(es: seq<Expr>, visible: set<string>, persistent: set<string>): (r: Option<seq<Expr>>)
    ensures r.Some? ==> |r.value| == |es|
    decreases es, 1
  {
    if es == [] then Some([])
    else
      var first := Rewrite(es[0], visible, persistent);
      var rest := RewriteAll(es[1..], visible, persistent);
      if first.Some? && rest.Some? then Some([first.value] + rest.value) else None
  }

  function RewriteCtes(ctes: seq<Cte>, visible: set<string>, persistent: set<string>): (r: Option<seq<Cte>>)
    ensures r.Some? ==> |r.value| == |ctes|
    decreases ctes, 1
  {
    if ctes == [] then Some([])
    else
      var first := Rewrite(ctes[0].body, visible, persistent);
      var rest := RewriteCtes(ctes[1..], visible, persistent);
      if first.Some? && rest.Some? then Some([Cte(ctes[0].name, first.value)] + rest.value) else None
  }

  /** `_rewrite_expression_for_control_db`: the DML target is never taken for a common table expression. */
  function RewriteStatement(s: Statement, persistent: set<string>): Option<Statement> {
    match s
    case Select(body) =>
      var newBody := Rewrite(body, {}, persistent);
      if newBody.Some? then Some(Select(newBody.value)) else None
    case Dml(op, withs, target, children) =>
      var newWiths := RewriteCtes(withs, Names(withs), persistent);
      var newChildren := RewriteAll(children, Names(withs), persistent);
      if Rewritable(target, persistent) && newWiths.Some? && newChildren.Some? then
        Some(Dml(op, newWiths.value, Qualified(target), newChildren.value))
      else None
    case Unsupported => None
  }

  // ----- which statements have a control form -----

  /** A table occurrence of the expression, and the names of common table expressions in sight where it stands. */
  ghost predicate Occurs(e: Expr, visible: set<string>, t: TableName, sight: set<string>)
    decreases e
  {
    match e
    case TableRef(u) => u == t && sight == visible
    case Node(_, withs, children) =>
      var inner := visible + set w | w in withs :: w.name;
      || (exists i :: 0 <= i < |withs| && Occurs(withs[i].body, inner, t, sight))
      || (exists i :: 0 <= i < |children| && Occurs(children[i], inner, t, sight))
  }

  /** A persistent table, without a schema, or of the main or the control one. */
  ghost predicate IsPersistent(t: TableName, persistent: set<string>) {
    t.name in persistent && t.db in {"", "main", "control"}
  }

  /** Every table occurrence names a common table expression in sight, or is a persistent table. */
  ghost predicate AllKnown(e: Expr, visible: set<string>, persistent: set<string>) {
    forall t, sight :: Occurs(e, visible, t, sight) ==> (t.db == "" && t.name in sight) || IsPersistent(t, persistent)
  }

  lemma {:induction false} RewriteExactly(e: Expr, visible: set<string>, persistent: set<string>)
    ensures Rewrite(e, visible, persistent).Some? <==> AllKnown(e, visible, persistent)
    decreases e, 0
  {
    match e
    case TableRef(t) => assert Occurs(e, visible, t, visible);
    case Node(_, withs, children) =>
      var inner := visible + Names(withs);
      CtesExactly(withs, inner, persistent);
      AllExactly(children, inner, persistent);
      NodeExactly(e, visible, persistent);
  }

  lemma NodeExactly(e: Expr, visible: set<string>, persistent: set<string>)
    requires e.Node?
    ensures AllKnown(e, visible, persistent) <==>
      && (forall i :: 0 <= i < |e.withs| ==> AllKnown(e.withs[i].body, visible + Names(e.withs), persistent))
      && (forall i :: 0 <= i < |e.children| ==> AllKnown(e.children[i], visible + Names(e.withs), persistent))
  {
    var inner := visible + Names(e.withs);
    forall t, sight ensures Occurs(e, visible, t, sight) <==>
      || (exists i :: 0 <= i < |e.withs| && Occurs(e.withs[i].body, inner, t, sight))
      || (exists i :: 0 <= i < |e.children| && Occurs(e.children[i], inner, t, sight))
    {
    }
    if AllKnown(e, visible, persistent) {
      forall i | 0 <= i < |e.withs| ensures AllKnown(e.withs[i].body, inner, persistent) {
        forall t, sight | Occurs(e.withs[i].body, inner, t, sight) ensures Occurs(e, visible, t, sight) {}
      }
      forall i | 0 <= i < |e.children| ensures AllKnown(e.children[i], inner, persistent) {
        forall t, sight | Occurs(e.children[i], inner, t, sight) ensures Occurs(e, visible, t, sight) {}
      }
    }
  }

  lemma {:induction false} CtesExactly(ctes: seq<Cte>, visible: set<string>, persistent: set<string>)
    ensures RewriteCtes(ctes, visible, persistent).Some? <==> forall i :: 0 <= i < |ctes| ==> AllKnown(ctes[i].body, visible, persistent)
    decreases ctes, 1
  {
    hide AllKnown, Rewrite;
    if ctes != [] {
      RewriteExactly(ctes[0].body, visible, persistent);
      CtesExactly(ctes[1..], visible, persistent);
      assert forall i :: 1 <= i < |ctes| ==> ctes[i] == ctes[1..][i - 1];
    }
  }

  lemma {:induction false} AllExactly(es: seq<Expr>, visible: set<string>, persistent: set<string>)
    ensures RewriteAll(es, visible, persistent).Some? <==> forall i :: 0 <= i < |es| ==> AllKnown(es[i], visible, persistent)
    decreases es, 1
  {
    hide AllKnown, Rewrite;
    if es != [] {
      RewriteExactly(es[0], visible, persistent);
      AllExactly(es[1..], visible, persistent);
      assert forall i :: 1 <= i < |es| ==> es[i] == es[1..][i - 1];
    }
  }

  /** A statement has a control form exactly when it is a query or a write of one table and every table in it is known,
      the written one never taken for a common table expression. */
  lemma StatementExactly(s: Statement, persistent: set<string>)
    ensures RewriteStatement(s, persistent).Some? <==>
      match s
      case Select(body) => AllKnown(body, {}, persistent)
      case Dml(op, withs, target, children) => IsPersistent(target, persistent) && AllKnown(Node(op, withs, children), {}, persistent)
      case Unsupported => false
  {
    match s
    case Select(body) => RewriteExactly(body, {}, persistent);
    case Dml(op, withs, target, children) =>
      var e := Node(op, withs, children);
      RewriteExactly(e, {}, persistent);
      assert {} + Names(withs) == Names(withs);
    case Unsupported =>
  }

  // ----- names and scopes -----

  predicate FoldedIn(name: string, visible: set<string>) {
    exists v :: v in visible && Fold(v) == Fold(name)
  }

  /** Every reference that SQLite resolves to a common table expression is spelled like one in sight. */
  predicate Spelled(e: Expr, visible: set<string>)
    decreases e, 0
  {
    match e
    case TableRef(t) => t.db == "" && FoldedIn(t.name, visible) ==> t.name in visible
    case Node(_, withs, children) => SpelledCtes(withs, visible + Names(withs)) && SpelledAll(children, visible + Names(withs))
  }

  predicate SpelledAll(es: seq<Expr>, visible: set<string>)
    decreases es, 1
  {
    es == [] || (Spelled(es[0], visible) && SpelledAll(es[1..], visible))
  }

  predicate SpelledCtes(ctes: seq<Cte>, visible: set<string>)
    decreases ctes, 1
  {
    ctes == [] || (Spelled(ctes[0].body, visible) && SpelledCtes(ctes[1..], visible))
  }

  predicate SpelledStatement(s: Statement) {
    match s
    case Select(body) => Spelled(body, {})
    case Dml(_, withs, _, children) => SpelledCtes(withs, Names(withs)) && SpelledAll(children, Names(withs))
    case Unsupported => true
  }

  function Visible(scope: Scope): set<string> {
    match scope
    case Root => {}
    case Block(ctes, outer) => Visible(outer) + Names(ctes)
  }

  /** Each block of the scope can be rewritten. */
  ghost predicate Good(scope: Scope, persistent: set<string>) {
    match scope
    case Root => true
    case Block(ctes, outer) =>
      && Good(outer, persistent)
      && RewriteCtes(ctes, Visible(scope), persistent).Some?
      && SpelledCtes(ctes, Visible(scope))
  }

  ghost function NewScope(scope: Scope, persistent: set<string>): Scope
    requires Good(scope, persistent)
  {
    match scope
    case Root => Root
    case Block(ctes, outer) => Block(RewriteCtes(ctes, Visible(scope), persistent).value, NewScope(outer, persistent))
  }

  lemma {:induction false} FindInNames(ctes: seq<Cte>, name: string)
    ensures FindIn(ctes, name).Some? <==> FoldedIn(name, Names(ctes))
  {
    hide Fold;
    if i :| 0 <= i < |ctes| && Fold(ctes[i].name) == Fold(name) {
      assert ctes[i].name in Names(ctes);
    }
    if v :| v in Names(ctes) && Fold(v) == Fold(name) {
      var c :| c in ctes && c.name == v;
      var i :| 0 <= i < |ctes| && ctes[i] == c;
    }
  }

  lemma {:induction false} FindVisible(scope: Scope, name: string)
    ensures Find(scope, name).Some? <==> FoldedIn(name, Visible(scope))
  {
    hide Fold;
    if scope.Block? {
      FindInNames(scope.ctes, name);
      FindVisible(scope.outer, name);
    }
  }

  lemma {:induction false} FindInRewritten(ctes: seq<Cte>, visible: set<string>, persistent: set<string>, name: string)
    requires RewriteCtes(ctes, visible, persistent).Some? && SpelledCtes(ctes, visible)
    ensures var found := FindIn(ctes, name);
      var now := FindIn(RewriteCtes(ctes, visible, persistent).value, name);
      && now.Some? == found.Some?
      && (found.Some? ==> Rewrite(found.value, visible, persistent) == now && Spelled(found.value, visible))
  {
    hide Fold, Rewrite, Spelled;
    if ctes != [] {
      FindInRewritten(ctes[1..], visible, persistent, name);
    }
  }

  lemma {:induction false} FindRewritten(scope: Scope, persistent: set<string>, name: string)
    requires Good(scope, persistent)
    ensures var found := Find(scope, name);
      var now := Find(NewScope(scope, persistent), name);
      && now.Some? == found.Some?
      && (found.Some? ==>
        && Good(found.value.scope, persistent) && now.value.scope == NewScope(found.value.scope, persistent)
        && Rewrite(found.value.body, Visible(found.value.scope), persistent) == Some(now.value.body)
        && Spelled(found.value.body, Visible(found.value.scope)))
  {
    hide Rewrite, Spelled, FindIn;
    if scope.Block? {
      FindInRewritten(scope.ctes, Visible(scope), persistent, name);
      FindRewritten(scope.outer, persistent, name);
    }
  }

  // ----- the meaning is kept -----

  ghost predicate Known(persistent: set<string>, control: map<string, Relation>) {
    forall name :: name in persistent ==> Fold(name) in control
  }

  lemma TableKept(main: map<string, Relation>, control: map<string, Relation>, t: TableName, persistent: set<string>)
    requires Known(persistent, control) && Rewritable(t, persistent)
    ensures Contents(Databases(main, control), Qualified(t)) == Contents(Databases(control, control), t)
    ensures Qualified(t).Exposed() == t.Exposed()
    ensures SideOf(Databases(main, control), Qualified(t)) == Control
  {
  }

  lemma RewriteExposes(e: Expr, visible: set<string>, persistent: set<string>)
    requires Rewrite(e, visible, persistent).Some?
    ensures ExposedBy(Rewrite(e, visible, persistent).value) == ExposedBy(e)
    ensures e.TableRef? && Rewrite(e, visible, persistent) != Some(e) ==>
      var t := Rewrite(e, visible, persistent).value.table;
      t.db == "control" && t.name == e.table.name && t.alias == Some(e.table.Exposed())
  {
  }

  /** A rewritten expression over (main, control) means what the original means with control as main. */
  lemma {:induction false} EvalKept(ops: Operators, main: map<string, Relation>, control: map<string, Relation>, scope: Scope,
    e: Expr, persistent: set<string>, fuel: nat)
    requires Known(persistent, control) && Good(scope, persistent)
    requires Rewrite(e, Visible(scope), persistent).Some? && Spelled(e, Visible(scope))
    ensures Eval(ops, Databases(main, control), NewScope(scope, persistent), Rewrite(e, Visible(scope), persistent).value, fuel)
      == Eval(ops, Databases(control, control), scope, e, fuel)
    decreases fuel, e, 0
  {
    hide Fold, Contents, SideOf;
    match e
    case TableRef(t) =>
      FindVisible(scope, t.name);
      FindRewritten(scope, persistent, t.name);
      if t.name in Visible(scope) { VisibleFolded(t.name, Visible(scope)); }
      if t.db == "" && Find(scope, t.name).Some? {
        if fuel > 0 {
          var bound := Find(scope, t.name).value;
          EvalKept(ops, main, control, bound.scope, bound.body, persistent, fuel - 1);
        }
      } else {
        TableKept(main, control, t, persistent);
      }
    case Node(op, withs, children) =>
      EvalAllKept(ops, main, control, Enter(scope, withs), children, persistent, fuel);
  }

  lemma VisibleFolded(name: string, visible: set<string>)
    requires name in visible
    ensures FoldedIn(name, visible)
  {
  }

  lemma {:induction false} EvalAllKept(ops: Operators, main: map<string, Relation>, control: map<string, Relation>, scope: Scope,
    es: seq<Expr>, persistent: set<string>, fuel: nat)
    requires Known(persistent, control) && Good(scope, persistent)
    requires RewriteAll(es, Visible(scope), persistent).Some? && SpelledAll(es, Visible(scope))
    ensures EvalAll(ops, Databases(main, control), NewScope(scope, persistent), RewriteAll(es, Visible(scope), persistent).value, fuel)
      == EvalAll(ops, Databases(control, control), scope, es, fuel)
    decreases fuel, es, 1
  {
    hide Rewrite, Spelled, Eval, ExposedBy, Known, Good, NewScope;
    if es != [] {
      EvalKept(ops, main, control, scope, es[0], persistent, fuel);
      RewriteExposes(es[0], Visible(scope), persistent);
      EvalAllKept(ops, main, control, scope, es[1..], persistent, fuel);
    }
  }

  /** What a statement does when its main schema stands for the control database. */
  function OnControl(m: Meaning): Meaning {
    if m.Writes? then m.(side := Control) else m
  }

  /** The rewritten statement over (main, control) reads and writes what the original would, were the
      control database its only one; it never writes main. */
  lemma StatementKept(ops: Operators, main: map<string, Relation>, control: map<string, Relation>, s: Statement,
    persistent: set<string>, fuel: nat)
    requires Known(persistent, control) && RewriteStatement(s, persistent).Some? && SpelledStatement(s)
    ensures EvalStatement(ops, Databases(main, control), RewriteStatement(s, persistent).value, fuel)
      == OnControl(EvalStatement(ops, Databases(control, control), s, fuel))
  {
    hide Fold, Rewrite, RewriteAll, RewriteCtes, Spelled, Eval, EvalAll, Contents;
    match s
    case Select(body) => EvalKept(ops, main, control, Root, body, persistent, fuel);
    case Dml(op, withs, target, children) =>
      TableKept(main, control, target, persistent);
      assert Visible(Enter(Root, withs)) == Names(withs);
      EvalAllKept(ops, main, control, Enter(Root, withs), children, persistent, fuel);
  }

  // ----- bindings -----

  /** What a table occurrence refers to: a common table expression of the block at some depth, or a table. */
  datatype Binding = ToCte(depth: nat, name: string) | ToTable(schema: string, name: string)

  function Depth(scope: Scope): nat {
    match scope
    case Root => 0
    case Block(_, outer) => 1 + Depth(outer)
  }

  ghost predicate Encloses(a: Scope, scope: Scope) {
    a == scope || (scope.Block? && Encloses(a, scope.outer))
  }

  /** A depth tells which of the enclosing scopes is meant. */
  lemma {:induction false} DepthNames(a: Scope, b: Scope, scope: Scope)
    requires Encloses(a, scope) && Encloses(b, scope)
    ensures Depth(a) == Depth(b) <==> a == b
    ensures Depth(a) <= Depth(scope)
    decreases scope
  {
    if scope.Block? {
      if Encloses(a, scope.outer) { DepthNames(a, a, scope.outer); }
      if Encloses(b, scope.outer) { DepthNames(b, b, scope.outer); }
      if Encloses(a, scope.outer) && Encloses(b, scope.outer) { DepthNames(a, b, scope.outer); }
    }
  }

  function BindingOf(scope: Scope, t: TableName): Binding {
    var bound := if t.db == "" then Find(scope, t.name) else None;
    if bound.Some? then ToCte(Depth(bound.value.scope), Fold(t.name)) else ToTable(t.db, Fold(t.name))
  }

  /** The bindings of all occurrences, in source order, bodies of common table expressions first. */
  function Bindings(scope: Scope, e: Expr): seq<Binding>
    decreases e, 0
  {
    match e
    case TableRef(t) => [BindingOf(scope, t)]
    case Node(_, withs, children) => BindingsOfCtes(Enter(scope, withs), withs) + BindingsOfAll(Enter(scope, withs), children)
  }

  function BindingsOfAll(scope: Scope, es: seq<Expr>): seq<Binding>
    decreases es, 1
  {
    if es == [] then [] else Bindings(scope, es[0]) + BindingsOfAll(scope, es[1..])
  }

  function BindingsOfCtes(scope: Scope, ctes: seq<Cte>): seq<Binding>
    decreases ctes, 1
  {
    if ctes == [] then [] else Bindings(scope, ctes[0].body) + BindingsOfCtes(scope, ctes[1..])
  }

  function Redirect(b: Binding): Binding {
    match b
    case ToCte(_, _) => b
    case ToTable(_, name) => ToTable(CONTROL_DB_SCHEMA, name)
  }

  function RedirectAll(bs: seq<Binding>): (r: seq<Binding>)
    ensures |r| == |bs|
  {
    seq(|bs|, i requires 0 <= i < |bs| => Redirect(bs[i]))
  }

  /** Two scopes with the same names block by block bind alike. */
  ghost predicate SameNames(a: Scope, b: Scope) {
    match (a, b)
    case (Root, Root) => true
    case (Block(c, x), Block(d, y)) => SameNames(x, y) && |c| == |d| && forall i :: 0 <= i < |c| ==> c[i].name == d[i].name
    case _ => false
  }

  lemma {:induction false} SameNamesBind(a: Scope, b: Scope, name: string)
    requires SameNames(a, b)
    ensures Find(a, name).Some? == Find(b, name).Some?
    ensures Find(a, name).Some? ==> Depth(Find(a, name).value.scope) == Depth(Find(b, name).value.scope)
    ensures Depth(a) == Depth(b)
  {
    hide Fold;
    if a.Block? {
      SameNamesBind(a.outer, b.outer, name);
      SameFind(a.ctes, b.ctes, name);
    }
  }

  lemma {:induction false} SameFind(c: seq<Cte>, d: seq<Cte>, name: string)
    requires |c| == |d| && forall i :: 0 <= i < |c| ==> c[i].name == d[i].name
    ensures FindIn(c, name).Some? == FindIn(d, name).Some?
  {
    hide Fold;
    if c != [] { SameFind(c[1..], d[1..], name); }
  }

  lemma {:induction false} RewriteCtesNames(ctes: seq<Cte>, visible: set<string>, persistent: set<string>)
    requires RewriteCtes(ctes, visible, persistent).Some?
    ensures var n := RewriteCtes(ctes, visible, persistent).value;
      |n| == |ctes| && forall i :: 0 <= i < |ctes| ==> n[i].name == ctes[i].name
  {
    hide Rewrite;
    if ctes != [] { RewriteCtesNames(ctes[1..], visible, persistent); }
  }

  lemma RedirectConcat(a: seq<Binding>, b: seq<Binding>, c: seq<Binding>, d: seq<Binding>)
    requires |a| == |c|
    ensures c + d == RedirectAll(a + b) <==> c == RedirectAll(a) && d == RedirectAll(b)
  {
    assert RedirectAll(a + b) == RedirectAll(a) + RedirectAll(b);
    if c + d == RedirectAll(a) + RedirectAll(b) {
      assert (c + d)[..|c|] == c && (c + d)[|c|..] == d;
    }
  }

  /** Rewriting keeps every binding, with tables moved to control, exactly when the references to common
      table expressions are spelled as they were declared. */
  lemma {:induction false} BindingsKept(scope: Scope, now: Scope, e: Expr, persistent: set<string>)
    requires SameNames(scope, now) && Rewrite(e, Visible(scope), persistent).Some?
    ensures var e' := Rewrite(e, Visible(scope), persistent).value;
      && |Bindings(now, e')| == |Bindings(scope, e)|
      && (Bindings(now, e') == RedirectAll(Bindings(scope, e)) <==> Spelled(e, Visible(scope)))
    decreases e, 0
  {
    hide Fold;
    match e
    case TableRef(t) =>
      SameNamesBind(scope, now, t.name);
      FindVisible(scope, t.name);
      if t.name in Visible(scope) { VisibleFolded(t.name, Visible(scope)); }
      assert RedirectAll([BindingOf(scope, t)])[0] == Redirect(BindingOf(scope, t));
      assert Bindings(now, Rewrite(e, Visible(scope), persistent).value)[0] == BindingOf(now, Rewrite(e, Visible(scope), persistent).value.table);
    case Node(op, withs, children) =>
      var inner, newWiths := Enter(scope, withs), RewriteCtes(withs, Visible(scope) + Names(withs), persistent).value;
      RewriteCtesNames(withs, Visible(inner), persistent);
      CteBindingsKept(inner, Enter(now, newWiths), withs, persistent);
      AllBindingsKept(inner, Enter(now, newWiths), children, persistent);
      RedirectConcat(BindingsOfCtes(inner, withs), BindingsOfAll(inner, children),
        BindingsOfCtes(Enter(now, newWiths), newWiths),
        BindingsOfAll(Enter(now, newWiths), RewriteAll(children, Visible(inner), persistent).value));
  }

  lemma {:induction false} AllBindingsKept(scope: Scope, now: Scope, es: seq<Expr>, persistent: set<string>)
    requires SameNames(scope, now) && RewriteAll(es, Visible(scope), persistent).Some?
    ensures var es' := RewriteAll(es, Visible(scope), persistent).value;
      && |BindingsOfAll(now, es')| == |BindingsOfAll(scope, es)|
      && (BindingsOfAll(now, es') == RedirectAll(BindingsOfAll(scope, es)) <==> SpelledAll(es, Visible(scope)))
    decreases es, 1
  {
    hide Rewrite, Spelled, Bindings, SameNames, RedirectAll;
    if es != [] {
      BindingsKept(scope, now, es[0], persistent);
      AllBindingsKept(scope, now, es[1..], persistent);
      var es' := RewriteAll(es, Visible(scope), persistent).value;
      RedirectConcat(Bindings(scope, es[0]), BindingsOfAll(scope, es[1..]), Bindings(now, es'[0]), BindingsOfAll(now, es'[1..]));
    } else {
      assert RedirectAll([]) == [];
    }
  }

  lemma {:induction false} CteBindingsKept(scope: Scope, now: Scope, ctes: seq<Cte>, persistent: set<string>)
    requires SameNames(scope, now) && RewriteCtes(ctes, Visible(scope), persistent).Some?
    ensures var n := RewriteCtes(ctes, Visible(scope), persistent).value;
      && |BindingsOfCtes(now, n)| == |BindingsOfCtes(scope, ctes)|
      && (BindingsOfCtes(now, n) == RedirectAll(BindingsOfCtes(scope, ctes)) <==> SpelledCtes(ctes, Visible(scope)))
    decreases ctes, 1
  {
    hide Rewrite, Spelled, Bindings, SameNames, RedirectAll;
    if ctes != [] {
      BindingsKept(scope, now, ctes[0].body, persistent);
      CteBindingsKept(scope, now, ctes[1..], persistent);
      var n := RewriteCtes(ctes, Visible(scope), persistent).value;
      RedirectConcat(Bindings(scope, ctes[0].body), BindingsOfCtes(scope, ctes[1..]), Bindings(now, n[0].body), BindingsOfCtes(now, n[1..]));
    } else {
      assert RedirectAll([]) == [];
    }
  }

  /** A reference spelled unlike its declaration, when a table has its spelling, is taken for that table. */
  lemma CapturedByTable(ops: Operators, dbs: Databases, scope: Scope, now: Scope, t: TableName, persistent: set<string>, fuel: nat)
    requires t.db == "" && t.name !in Visible(scope) && Rewritable(t, persistent) && Known(persistent, dbs.control)
    requires Find(scope, t.name).Some? && fuel > 0
    ensures var bound := Find(scope, t.name).value;
      && Rewrite(TableRef(t), Visible(scope), persistent) == Some(TableRef(Qualified(t)))
      && Eval(ops, dbs, now, TableRef(Qualified(t)), fuel) == dbs.control[Fold(t.name)]
      && Eval(ops, dbs, scope, TableRef(t), fuel) == Eval(ops, dbs, bound.scope, bound.body, fuel - 1)
  {
    hide Find, Fold;
  }

  /** WITH Foo AS u ... FROM foo, beside a table foo: control's foo is read in place of u. */
  lemma MisspelledReference(ops: Operators, fuel: nat)
    requires fuel > 0
    ensures var scope := Enter(Root, [Cte("Foo", TableRef(TableName("", "u", None)))]);
      var foo := TableName("", "foo", None);
      var dbs := Databases(map["foo" := {[1]}, "u" := {[2]}], map["foo" := {[1]}, "u" := {[2]}]);
      var rewritten := Rewrite(TableRef(foo), Visible(scope), {"foo", "u"});
      && rewritten.Some? && Eval(ops, dbs, scope, rewritten.value, fuel) == {[1]} && Eval(ops, dbs, scope, TableRef(foo), fuel) == {[2]}
  {
    var u, foo := TableName("", "u", None), TableName("", "foo", None);
    var withs := [Cte("Foo", TableRef(u))];
    var control: map<string, Relation> := map["foo" := {[1]}, "u" := {[2]}];
    assert Fold("Foo") == "foo" && Fold("foo") == "foo" && Fold("u") == "u";
    assert |"u"| != |"foo"| && "Foo"[0] != "foo"[0];
    assert FindIn(withs, "foo") == Some(TableRef(u));
    assert FindIn(withs, "u") == None by { assert |Fold("Foo")| == 3; }
    CapturedByTable(ops, Databases(control, control), Enter(Root, withs), Enter(Root, withs), foo, {"foo", "u"}, fuel);
  }

  // ----- collecting the tables to qualify -----

  /** The occurrences the rewrite qualifies, in order. */
  function TablesOf(e: Expr, visible: set<string>): seq<TableName>
    decreases e, 0
  {
    match e
    case TableRef(t) => if IsCteReference(t, visible) then [] else [t]
    case Node(_, withs, children) => TablesOfCtes(withs, visible + Names(withs)) + TablesOfAll(children, visible + Names(withs))
  }

  function TablesOfAll(es: seq<Expr>, visible: set<string>): seq<TableName>
    decreases es, 1
  {
    if es == [] then [] else TablesOf(es[0], visible) + TablesOfAll(es[1..], visible)
  }

  function TablesOfCtes(ctes: seq<Cte>, visible: set<string>): seq<TableName>
    decreases ctes, 1
  {
    if ctes == [] then [] else TablesOf(ctes[0].body, visible) + TablesOfCtes(ctes[1..], visible)
  }

  /** `_collect_persistent_table_references`: it succeeds exactly when the rewrite does. */
  method CollectPersistentTableReferences(e: Expr, visible: set<string>, persistent: set<string>, tables0: seq<TableName>)
    returns (ok: bool, tables: seq<TableName>)
    ensures ok <==> Rewrite(e, visible, persistent).Some?
    ensures ok ==> tables == tables0 + TablesOf(e, visible)
    decreases e, 0
  {
    match e
    case TableRef(t) =>
      if t.db == "" && t.name in visible { return true, tables0; }
      if !Rewritable(t, persistent) { return false, tables0; }
      return true, tables0 + [t];
    case Node(op, withs, children) =>
      var inner := visible + Names(withs);
      ok, tables := CollectBodies(e, withs, inner, persistent, tables0);
      if !ok { return; }
      ghost var middle := tables;
      ok, tables := CollectAll(e, children, inner, persistent, tables);
      assert ok ==> tables == tables0 + (TablesOfCtes(withs, inner) + TablesOfAll(children, inner));
  }

  method CollectAll(ghost parent: Expr, es: seq<Expr>, visible: set<string>, persistent: set<string>, tables0: seq<TableName>)
    returns (ok: bool, tables: seq<TableName>)
    requires parent.Node? && es == parent.children
    ensures ok <==> RewriteAll(es, visible, persistent).Some?
    ensures ok ==> tables == tables0 + TablesOfAll(es, visible)
    decreases parent, 0, 0
  {
    hide Rewrite, TablesOf;
    tables := tables0;
    for i := 0 to |es|
      invariant RewriteAll(es, visible, persistent).Some? <==> RewriteAll(es[i..], visible, persistent).Some?
      invariant tables0 + TablesOfAll(es, visible) == tables + TablesOfAll(es[i..], visible)
    {
      assert es[i..][1..] == es[i + 1..];
      ghost var before := tables;
      ok, tables := CollectPersistentTableReferences(es[i], visible, persistent, tables);
      if !ok { return; }
      assert before + (TablesOf(es[i], visible) + TablesOfAll(es[i + 1..], visible)) == tables + TablesOfAll(es[i + 1..], visible);
    }
    ok := true;
  }

  method CollectBodies(ghost parent: Expr, ctes: seq<Cte>, visible: set<string>, persistent: set<string>, tables0: seq<TableName>)
    returns (ok: bool, tables: seq<TableName>)
    requires parent.Node? && ctes == parent.withs
    ensures ok <==> RewriteCtes(ctes, visible, persistent).Some?
    ensures ok ==> tables == tables0 + TablesOfCtes(ctes, visible)
    decreases parent, 0, 0
  {
    hide Rewrite, TablesOf;
    tables := tables0;
    for i := 0 to |ctes|
      invariant RewriteCtes(ctes, visible, persistent).Some? <==> RewriteCtes(ctes[i..], visible, persistent).Some?
      invariant tables0 + TablesOfCtes(ctes, visible) == tables + TablesOfCtes(ctes[i..], visible)
    {
      assert ctes[i..][1..] == ctes[i + 1..];
      ghost var before := tables;
      ok, tables := CollectPersistentTableReferences(ctes[i].body, visible, persistent, tables);
      if !ok { return; }
      assert before + (TablesOf(ctes[i].body, visible) + TablesOfCtes(ctes[i + 1..], visible)) == tables + TablesOfCtes(ctes[i + 1..], visible);
    }
    ok := true;
  }

  function OnlyTables(bs: seq<Binding>): seq<Binding> {
    if bs == [] then [] else (if bs[0].ToTable? then [bs[0]] else []) + OnlyTables(bs[1..])
  }

  function AsBindings(ts: seq<TableName>): (r: seq<Binding>)
    ensures |r| == |ts|
  {
    seq(|ts|, i requires 0 <= i < |ts| => ToTable(ts[i].db, Fold(ts[i].name)))
  }

  lemma {:induction false} OnlyTablesConcat(a: seq<Binding>, b: seq<Binding>)
    ensures OnlyTables(a + b) == OnlyTables(a) + OnlyTables(b)
  {
    if a == [] {
      assert [] + b == b;
    } else {
      var head := if a[0].ToTable? then [a[0]] else [];
      assert (a + b)[1..] == a[1..] + b && (a + b)[0] == a[0];
      OnlyTablesConcat(a[1..], b);
      assert head + (OnlyTables(a[1..]) + OnlyTables(b)) == (head + OnlyTables(a[1..])) + OnlyTables(b);
    }
  }

  lemma AsBindingsConcat(a: seq<TableName>, b: seq<TableName>)
    ensures AsBindings(a + b) == AsBindings(a) + AsBindings(b)
  {
  }

  /** What is collected is what SQLite binds to tables: no reference to a common table expression, and
      no table left out. */
  lemma {:induction false} CollectedAreTables(scope: Scope, e: Expr)
    requires Spelled(e, Visible(scope))
    ensures OnlyTables(Bindings(scope, e)) == AsBindings(TablesOf(e, Visible(scope)))
    decreases e, 0
  {
    hide Fold;
    match e
    case TableRef(t) =>
      FindVisible(scope, t.name);
      if t.name in Visible(scope) { VisibleFolded(t.name, Visible(scope)); }
    case Node(_, withs, children) =>
      var inner := Enter(scope, withs);
      CollectedOfCtes(inner, withs);
      CollectedOfAll(inner, children);
      OnlyTablesConcat(BindingsOfCtes(inner, withs), BindingsOfAll(inner, children));
      AsBindingsConcat(TablesOfCtes(withs, Visible(inner)), TablesOfAll(children, Visible(inner)));
  }

  lemma {:induction false} CollectedOfAll(scope: Scope, es: seq<Expr>)
    requires SpelledAll(es, Visible(scope))
    ensures OnlyTables(BindingsOfAll(scope, es)) == AsBindings(TablesOfAll(es, Visible(scope)))
    decreases es, 1
  {
    hide Spelled, Bindings, TablesOf, AsBindings;
    if es != [] {
      CollectedAreTables(scope, es[0]);
      CollectedOfAll(scope, es[1..]);
      OnlyTablesConcat(Bindings(scope, es[0]), BindingsOfAll(scope, es[1..]));
      AsBindingsConcat(TablesOf(es[0], Visible(scope)), TablesOfAll(es[1..], Visible(scope)));
    } else {
      assert AsBindings([]) == [];
    }
  }

  lemma {:induction false} CollectedOfCtes(scope: Scope, ctes: seq<Cte>)
    requires SpelledCtes(ctes, Visible(scope))
    ensures OnlyTables(BindingsOfCtes(scope, ctes)) == AsBindings(TablesOfCtes(ctes, Visible(scope)))
    decreases ctes, 1
  {
    hide Spelled, Bindings, TablesOf, AsBindings;
    if ctes != [] {
      CollectedAreTables(scope, ctes[0].body);
      CollectedOfCtes(scope, ctes[1..]);
      OnlyTablesConcat(Bindings(scope, ctes[0].body), BindingsOfCtes(scope, ctes[1..]));
      AsBindingsConcat(TablesOf(ctes[0].body, Visible(scope)), TablesOfCtes(ctes[1..], Visible(scope)));
    } else {
      assert AsBindings([]) == [];
    }
  }
}
