/**
 Bound, hoisted, and lexical names (tools/test262-source.ts) by where they stand: a name is
 collected exactly when a way through the tree leads to it, each step of which the tables allow.
 */
module NameRules {
  import opened SyntaxNames

  /** One step down: into a field, or to an element of a list. */
  datatype Move = Into(key: string) | At(index: nat)

  /** The fields of a pattern that hold patterns. */
  const PATTERN_STEPS: set<(string, string)> := {
    ("ObjectPattern", "properties"), ("ObjectProperty", "value"), ("ArrayPattern", "elements"),
    ("RestElement", "argument"), ("AssignmentPattern", "left")
  }

  /** The fields of a statement through which a `var` declaration is hoisted. */
  const STATEMENT_STEPS: set<(string, string)> := {
    ("ExportNamedDeclaration", "declaration"), ("BlockStatement", "body"), ("LabeledStatement", "body"),
    ("WithStatement", "body"), ("WhileStatement", "body"), ("DoWhileStatement", "body"), ("CatchClause", "body"),
    ("IfStatement", "consequent"), ("IfStatement", "alternate"), ("ForStatement", "init"), ("ForStatement", "body"),
    ("ForInStatement", "left"), ("ForInStatement", "body"), ("ForOfStatement", "left"), ("ForOfStatement", "body"),
    ("TryStatement", "block"), ("TryStatement", "handler"), ("TryStatement", "finalizer"),
    ("SwitchStatement", "cases"), ("SwitchCase", "consequent")
  }

  /** The way leads from one value to another by allowed steps. */
  predicate Leads(steps: set<(string, string)>, v: Value, path: seq<Move>, to: Value)
    decreases |path|
  {
    if path == [] then v == to
    else
      match path[0]
      case At(i) => v.Items? && i < |v.items| && Leads(steps, v.items[i], path[1..], to)
      case Into(key) => v.Node? && (TypeOf(v), key) in steps && Leads(steps, Get(v, key), path[1..], to)
  }

  lemma LeadsAt(steps: set<(string, string)>, v: Value, i: nat, path: seq<Move>, to: Value)
    requires v.Items? && i < |v.items| && Leads(steps, v.items[i], path, to)
    ensures Leads(steps, v, [At(i)] + path, to)
  {
    assert ([At(i)] + path)[1..] == path;
  }

  lemma LeadsInto(steps: set<(string, string)>, v: Value, key: string, path: seq<Move>, to: Value)
    requires v.Node? && (TypeOf(v), key) in steps && Leads(steps, Get(v, key), path, to)
    ensures Leads(steps, v, [Into(key)] + path, to)
  {
    assert ([Into(key)] + path)[1..] == path;
  }

  // ----- Bound names -----

  lemma PatternSteps(type': string, key: string)
    ensures key in PatternKeys(type') <==> (type', key) in PATTERN_STEPS
  {}

  /** The way leads through nested patterns to an identifier of this name. */
  ghost predicate BoundAt(v: Value, path: seq<Move>, to: Value, n: string) {
    Leads(PATTERN_STEPS, v, path, to) && TypeOf(to) == "Identifier" && Part(to, "name") == Text(n)
  }

  lemma {:induction false} BoundByWay(v: Value, n: string) returns (path: seq<Move>, to: Value)
    requires n in BoundNames(v)
    ensures BoundAt(v, path, to, n)
    decreases Size(v)
  {
    if v.Items? {
      ItemsAreSmaller(v.items);
      var i: nat :| i < |v.items| && n in BoundNames(v.items[i]);
      var below;
      below, to := BoundByWay(v.items[i], n);
      path := [At(i)] + below;
      LeadsAt(PATTERN_STEPS, v, i, below, to);
    } else if n in OwnName(v) {
      path, to := [], v;
    } else {
      var k :| k in PatternKeys(TypeOf(v)) && n in BoundNames(Get(v, k));
      PatternSteps(TypeOf(v), k);
      var below;
      below, to := BoundByWay(Get(v, k), n);
      path := [Into(k)] + below;
      LeadsInto(PATTERN_STEPS, v, k, below, to);
    }
  }

  lemma {:induction false} WayIsBound(v: Value, path: seq<Move>, to: Value, n: string)
    requires BoundAt(v, path, to, n)
    ensures n in BoundNames(v)
    decreases |path|
  {
    if path != [] {
      match path[0]
      case At(i) => WayIsBound(v.items[i], path[1..], to, n);
      case Into(key) =>
        PatternSteps(TypeOf(v), key);
        WayIsBound(Get(v, key), path[1..], to, n);
    }
  }

  /** A pattern binds a name if and only if a way through its nested patterns leads to it. */
  lemma BoundIff(v: Value, n: string)
    ensures n in BoundNames(v) <==> exists path, to :: BoundAt(v, path, to, n)
  {
    if n in BoundNames(v) {
      var path, to := BoundByWay(v, n);
    }
    if path, to :| BoundAt(v, path, to, n) {
      WayIsBound(v, path, to, n);
    }
  }

  // ----- Lexical names -----

  /** What an export declares; any other statement stands for itself. */
  function Exported(statement: Value): Value {
    if TypeOf(statement) == "ExportNamedDeclaration" || TypeOf(statement) == "ExportDefaultDeclaration" then
      Part(statement, "declaration")
    else statement
  }

  ghost predicate DeclaresId(d: Value, n: string) {
    (TypeOf(d) == "FunctionDeclaration" || TypeOf(d) == "ClassDeclaration") && n in BoundNames(Part(d, "id"))
  }

  ghost predicate DeclaresVariable(d: Value, n: string) {
    && TypeOf(d) == "VariableDeclaration"
    && exists x :: x in ItemsOf(Part(d, "declarations")) && n in BoundNames(Part(x, "id"))
  }

  ghost predicate Imports(statement: Value, n: string) {
    && TypeOf(statement) == "ImportDeclaration"
    && exists x :: x in ItemsOf(Part(statement, "specifiers")) && n in BoundNames(Part(x, "local"))
  }

  /** A statement declares a name itself: an import, or a function, class or variable, exported or not. */
  ghost predicate Declares(statement: Value, n: string) {
    DeclaresId(Exported(statement), n) || DeclaresVariable(Exported(statement), n) || Imports(statement, n)
  }

  lemma InUnion(key: string, vs: seq<Value>, n: string)
    ensures n in Union(NamesOfPart(key), vs) <==> exists x :: x in vs && n in BoundNames(Part(x, key))
  {
    if x :| x in vs && n in BoundNames(Part(x, key)) {
      var i :| 0 <= i < |vs| && vs[i] == x;
      assert n in NamesOfPart(key)(vs[i]);
    }
  }

  lemma DifferentTypes(type': string)
    ensures type' == "ImportDeclaration" ==>
      (&& type' != "ExportNamedDeclaration" && type' != "ExportDefaultDeclaration"
       && type' != "FunctionDeclaration" && type' != "ClassDeclaration" && type' != "VariableDeclaration")
    ensures type' == "VariableDeclaration" ==> type' != "FunctionDeclaration" && type' != "ClassDeclaration"
  {}

  lemma ExportedIs(statement: Value)
    ensures DeclarationOf(statement) == Exported(statement)
  {}

  /** What a statement declares, by the type of what it exports or is. */
  lemma IdNames(statement: Value)
    requires TypeOf(Exported(statement)) == "FunctionDeclaration" || TypeOf(Exported(statement)) == "ClassDeclaration"
    ensures StatementNames(statement) == BoundNames(Part(Exported(statement), "id"))
  {
    ExportedIs(statement);
  }

  lemma VariableNames(statement: Value)
    requires TypeOf(Exported(statement)) == "VariableDeclaration"
    ensures StatementNames(statement)
      == Union(NamesOfPart("id"), ItemsOf(Part(Exported(statement), "declarations")))
  {
    ExportedIs(statement);
  }

  lemma ImportNames(statement: Value)
    requires TypeOf(statement) == "ImportDeclaration"
    ensures Exported(statement) == statement
    ensures StatementNames(statement) == Union(NamesOfPart("local"), ItemsOf(Part(statement, "specifiers")))
  {
    ExportedIs(statement);
  }

  lemma NoNames(statement: Value)
    requires var type' := TypeOf(Exported(statement));
      type' != "FunctionDeclaration" && type' != "ClassDeclaration" && type' != "VariableDeclaration"
    requires TypeOf(statement) != "ImportDeclaration"
    ensures StatementNames(statement) == {}
  {
    ExportedIs(statement);
  }

  lemma StatementDeclares(statement: Value, n: string)
    ensures n in StatementNames(statement) <==> Declares(statement, n)
  {
    var d := Exported(statement);
    var type' := TypeOf(d);
    DifferentTypes(type');
    if TypeOf(statement) == "ImportDeclaration" {
      ImportNames(statement);
      InUnion("local", ItemsOf(Part(statement, "specifiers")), n);
    } else if type' == "VariableDeclaration" {
      VariableNames(statement);
      InUnion("id", ItemsOf(Part(d, "declarations")), n);
    } else if type' == "FunctionDeclaration" || type' == "ClassDeclaration" {
      IdNames(statement);
    } else {
      NoNames(statement);
    }
  }

  /** A list declares a name if and only if one of its statements does. */
  lemma LexicalIff(statements: Value, n: string)
    ensures n in LexicalNames(statements) <==> exists s :: s in ListOf(statements) && Declares(s, n)
  {
    var list := ListOf(statements);
    if n in LexicalNames(statements) {
      var i :| 0 <= i < |list| && n in StatementNames(list[i]);
      StatementDeclares(list[i], n);
    }
    if s :| s in list && Declares(s, n) {
      var i :| 0 <= i < |list| && list[i] == s;
      StatementDeclares(list[i], n);
    }
  }

  // ----- Hoisted names -----

  lemma StatementSteps(type': string, key: string)
    ensures key in StatementKeys(type') <==> (type', key) in STATEMENT_STEPS
  {}

  /** The way leads through nested statements to a `var` declaration of this name. */
  ghost predicate HoistedAt(v: Value, path: seq<Move>, to: Value, n: string) {
    && Leads(STATEMENT_STEPS, v, path, to)
    && TypeOf(to) == "VariableDeclaration" && Part(to, "kind") == Text("var") && n in LexicalNames(to)
  }

  lemma {:induction false} HoistedByWay(v: Value, n: string) returns (path: seq<Move>, to: Value)
    requires n in HoistedNames(v)
    ensures HoistedAt(v, path, to, n)
    decreases Size(v)
  {
    if v.Items? {
      ItemsAreSmaller(v.items);
      var i: nat :| i < |v.items| && n in HoistedNames(v.items[i]);
      var below;
      below, to := HoistedByWay(v.items[i], n);
      path := [At(i)] + below;
      LeadsAt(STATEMENT_STEPS, v, i, below, to);
    } else if n in OwnVars(v) {
      path, to := [], v;
    } else {
      var k :| k in StatementKeys(TypeOf(v)) && n in HoistedNames(Get(v, k));
      StatementSteps(TypeOf(v), k);
      var below;
      below, to := HoistedByWay(Get(v, k), n);
      path := [Into(k)] + below;
      LeadsInto(STATEMENT_STEPS, v, k, below, to);
    }
  }

  lemma {:induction false} WayIsHoisted(v: Value, path: seq<Move>, to: Value, n: string)
    requires HoistedAt(v, path, to, n)
    ensures n in HoistedNames(v)
    decreases |path|
  {
    if path != [] {
      match path[0]
      case At(i) => WayIsHoisted(v.items[i], path[1..], to, n);
      case Into(key) =>
        StatementSteps(TypeOf(v), key);
        WayIsHoisted(Get(v, key), path[1..], to, n);
    }
  }

  /** A name is hoisted if and only if a way through nested statements leads to a `var` declaration of it. */
  lemma HoistedIff(v: Value, n: string)
    ensures n in HoistedNames(v) <==> exists path, to :: HoistedAt(v, path, to, n)
  {
    if n in HoistedNames(v) {
      var path, to := HoistedByWay(v, n);
    }
    if path, to :| HoistedAt(v, path, to, n) {
      WayIsHoisted(v, path, to, n);
    }
  }
}
