/**
 Names that patterns, statement lists, and function bodies declare (tools/test262-source.ts).
 A syntax tree is a record of named fields, as the parser returns it; each worklist collector is
 proved equal to a recursive definition.
 */
module SyntaxNames {

  /** `Atom` stands for null, undefined, and numbers. */
  datatype Value = Atom | Text(text: string) | Flag(flag: bool) | Items(items: seq<Value>) | Node(fields: seq<Field>)

  datatype Field = Field(key: string, value: Value)

  // ----- Sizes, for the worklists -----

  function Size(v: Value): (n: nat)
    ensures v == Atom <==> n == 0
  {
    match v
    case Atom => 0
    case Items(items) => 1 + TotalSize(items)
    case Node(fields) => 1 + FieldSize(fields)
    case _ => 1
  }

  function TotalSize(vs: seq<Value>): nat {
    if vs == [] then 0 else TotalSize(vs[..|vs| - 1]) + Size(vs[|vs| - 1])
  }

  function FieldSize(fields: seq<Field>): nat {
    if fields == [] then 0 else Size(fields[0].value) + FieldSize(fields[1..])
  }

  lemma {:induction false} TotalSizeConcat(a: seq<Value>, b: seq<Value>)
    ensures TotalSize(a + b) == TotalSize(a) + TotalSize(b)
    decreases |b|
  {
    if b == [] {
      assert a + b == a;
    } else {
      assert (a + b)[..|a + b| - 1] == a + b[..|b| - 1];
      TotalSizeConcat(a, b[..|b| - 1]);
    }
  }

  lemma {:induction false} ItemIsSmaller(vs: seq<Value>, i: nat)
    requires i < |vs|
    ensures Size(vs[i]) <= TotalSize(vs)
  {
    if i < |vs| - 1 {
      ItemIsSmaller(vs[..|vs| - 1], i);
    }
  }

  lemma ItemsAreSmaller(vs: seq<Value>)
    ensures forall i | 0 <= i < |vs| :: Size(vs[i]) <= TotalSize(vs)
  {
    forall i | 0 <= i < |vs| ensures Size(vs[i]) <= TotalSize(vs) {
      ItemIsSmaller(vs, i);
    }
  }

  lemma {:induction false} FieldIsSmaller(fields: seq<Field>, i: nat)
    requires i < |fields|
    ensures Size(fields[i].value) <= FieldSize(fields)
  {
    if i > 0 {
      FieldIsSmaller(fields[1..], i - 1);
    }
  }

  // ----- Reading a node -----

  /** The value of a field, or `Atom` when the node has none of that name. */
  function Get(node: Value, key: string): (v: Value)
    requires node.Node?
    ensures Size(v) < Size(node)
  {
    GetField(node.fields, key)
  }

  function GetField(fields: seq<Field>, key: string): (v: Value)
    ensures Size(v) <= FieldSize(fields)
  {
    if fields == [] then Atom
    else if fields[0].key == key then fields[0].value
    else GetField(fields[1..], key)
  }

  /** The fields of several names. */
  function Gets(node: Value, keys: seq<string>): (vs: seq<Value>)
    requires node.Node?
    ensures |vs| == |keys| && forall i | 0 <= i < |keys| :: vs[i] == Get(node, keys[i])
  {
    if keys == [] then [] else Gets(node, keys[..|keys| - 1]) + [Get(node, keys[|keys| - 1])]
  }

  ghost predicate DistinctKeys(keys: seq<string>) {
    forall i, j | 0 <= i < j < |keys| :: keys[i] != keys[j]
  }

  function KeysSize(fields: seq<Field>, keys: seq<string>): nat {
    if keys == [] then 0 else KeysSize(fields, keys[..|keys| - 1]) + Size(GetField(fields, keys[|keys| - 1]))
  }

  lemma {:induction false} OneFieldOfKeys(fields: seq<Field>, keys: seq<string>)
    requires fields != [] && DistinctKeys(keys)
    ensures KeysSize(fields, keys) <=
      KeysSize(fields[1..], keys) + if fields[0].key in keys then Size(fields[0].value) else 0
  {
    if keys != [] {
      var init, last := keys[..|keys| - 1], keys[|keys| - 1];
      OneFieldOfKeys(fields, init);
      assert keys == init + [last];
      assert last !in init;
    }
  }

  lemma {:induction false} KeysFit(fields: seq<Field>, keys: seq<string>)
    requires DistinctKeys(keys)
    ensures KeysSize(fields, keys) <= FieldSize(fields)
    decreases |fields|, |keys|
  {
    if fields != [] {
      OneFieldOfKeys(fields, keys);
      KeysFit(fields[1..], keys);
    } else if keys != [] {
      KeysFit(fields, keys[..|keys| - 1]);
    }
  }

  lemma {:induction false} GetsSize(node: Value, keys: seq<string>)
    requires node.Node?
    ensures TotalSize(Gets(node, keys)) == KeysSize(node.fields, keys)
  {
    if keys != [] {
      GetsSize(node, keys[..|keys| - 1]);
      var vs := Gets(node, keys);
      assert vs[..|vs| - 1] == Gets(node, keys[..|keys| - 1]);
    }
  }

  /** Distinct fields of a node are together smaller than the node. */
  lemma GetsAreSmaller(node: Value, keys: seq<string>)
    requires node.Node? && DistinctKeys(keys)
    ensures TotalSize(Gets(node, keys)) < Size(node)
  {
    GetsSize(node, keys);
    KeysFit(node.fields, keys);
  }

  function TypeOf(v: Value): string {
    if v.Node? && Get(v, "type").Text? then Get(v, "type").text else ""
  }

  function ItemsOf(v: Value): seq<Value> {
    if v.Items? then v.items else []
  }

  function ListOf(v: Value): seq<Value> {
    if v.Items? then v.items else [v]
  }

  // ----- Unions over lists -----

  function Union<T>(f: T -> set<string>, vs: seq<T>): set<string> {
    set i, n | 0 <= i < |vs| && n in f(vs[i]) :: n
  }

  lemma UnionConcat<T>(f: T -> set<string>, a: seq<T>, b: seq<T>)
    ensures Union(f, a + b) == Union(f, a) + Union(f, b)
  {
    forall n ensures n in Union(f, a + b) <==> n in Union(f, a) || n in Union(f, b) {
      if n in Union(f, a) {
        var i :| 0 <= i < |a| && n in f(a[i]);
        assert (a + b)[i] == a[i];
      }
      if n in Union(f, b) {
        var i :| 0 <= i < |b| && n in f(b[i]);
        assert (a + b)[|a| + i] == b[i];
      }
    }
  }

  lemma UnionOne<T>(f: T -> set<string>, v: T)
    ensures Union(f, [v]) == f(v)
  {
    forall n ensures n in Union(f, [v]) <==> n in f(v) {
      if n in f(v) {
        assert [v][0] == v;
      }
    }
  }

  // ----- Bound names of a pattern -----

  /** The fields that hold the nested patterns of a pattern. */
  function PatternKeys(type': string): (keys: seq<string>)
    ensures DistinctKeys(keys)
  {
    if type' == "ObjectPattern" then ["properties"]
    else if type' == "ObjectProperty" then ["value"]
    else if type' == "ArrayPattern" then ["elements"]
    else if type' == "RestElement" then ["argument"]
    else if type' == "AssignmentPattern" then ["left"]
    else []
  }

  function OwnName(v: Value): set<string> {
    if TypeOf(v) == "Identifier" && Get(v, "name").Text? then {Get(v, "name").text} else {}
  }

  /** BoundNames of a binding pattern, section 8.2.1 of ECMA-262. */
  function BoundNames(v: Value): set<string>
    decreases Size(v)
  {
    match v
    case Items(items) =>
      ItemsAreSmaller(items);
      set i, n | 0 <= i < |items| && n in BoundNames(items[i]) :: n
    case Node(_) =>
      OwnName(v) + set k, n | k in PatternKeys(TypeOf(v)) && n in BoundNames(Get(v, k)) :: n
    case _ => {}
  }

  lemma BoundNamesOfFields(v: Value, keys: seq<string>)
    requires v.Node? && keys == PatternKeys(TypeOf(v))
    ensures BoundNames(v) == OwnName(v) + Union(BoundNames, Gets(v, keys))
  {
    forall n ensures n in Union(BoundNames, Gets(v, keys)) <==> exists k :: k in keys && n in BoundNames(Get(v, k)) {
      if n in Union(BoundNames, Gets(v, keys)) {
        var i :| 0 <= i < |keys| && n in BoundNames(Gets(v, keys)[i]);
        assert keys[i] in keys;
      }
      if exists k :: k in keys && n in BoundNames(Get(v, k)) {
        var k :| k in keys && n in BoundNames(Get(v, k));
        var i :| 0 <= i < |keys| && keys[i] == k;
        assert Gets(v, keys)[i] == Get(v, k);
      }
    }
  }

  lemma BoundNamesOfItems(v: Value)
    requires v.Items?
    ensures BoundNames(v) == Union(BoundNames, v.items)
  {}

  lemma PopAndPush<T>(f: T -> set<string>, stack: seq<T>, own: set<string>, pushed: seq<T>)
    requires stack != [] && f(stack[|stack| - 1]) == own + Union(f, pushed)
    ensures Union(f, stack) == own + Union(f, stack[..|stack| - 1] + pushed)
  {
    var rest, top := stack[..|stack| - 1], stack[|stack| - 1];
    assert stack == rest + [top];
    UnionConcat(f, rest, [top]);
    UnionOne(f, top);
    UnionConcat(f, rest, pushed);
  }

  /** Replacing the top of a worklist by something smaller shrinks the worklist. */
  lemma PushIsSmaller(stack: seq<Value>, pushed: seq<Value>)
    requires stack != []
    ensures var rest := stack[..|stack| - 1];
      TotalSize(rest + pushed) == TotalSize(stack) - Size(stack[|stack| - 1]) + TotalSize(pushed)
  {
    TotalSizeConcat(stack[..|stack| - 1], pushed);
  }

  /** The names a pattern node binds itself and the patterns nested in it. */
  method ExpandPattern(value: Value) returns (own: set<string>, pushed: seq<Value>)
    ensures BoundNames(value) == own + Union(BoundNames, pushed)
    ensures (value == Atom && pushed == []) || TotalSize(pushed) < Size(value)
  {
    own, pushed := {}, [];
    if value.Items? {
      pushed := value.items;
      BoundNamesOfItems(value);
    } else if value.Node? {
      own, pushed := OwnName(value), Gets(value, PatternKeys(TypeOf(value)));
      BoundNamesOfFields(value, PatternKeys(TypeOf(value)));
      GetsAreSmaller(value, PatternKeys(TypeOf(value)));
    }
  }

  method CollectBoundNames(pattern: Value, names: set<string>) returns (r: set<string>)
    ensures r == names + BoundNames(pattern)
  {
    r := names;
    var pending := [pattern];
    UnionOne(BoundNames, pattern);
    while pending != []
      invariant r + Union(BoundNames, pending) == names + BoundNames(pattern)
      decreases TotalSize(pending), |pending|
    {
      var rest, value := pending[..|pending| - 1], pending[|pending| - 1];
      var own, pushed := ExpandPattern(value);
      PopAndPush(BoundNames, pending, own, pushed);
      PushIsSmaller(pending, pushed);
      r := r + own;
      pending := rest + pushed;
    }
  }

  // ----- Declarations of a statement list -----

  /** The node a field of a node holds, or `Atom` when `v` is no node. */
  function Part(v: Value, key: string): Value {
    if v.Node? then Get(v, key) else Atom
  }

  predicate IsExport(v: Value) {
    TypeOf(v) == "ExportNamedDeclaration" || TypeOf(v) == "ExportDefaultDeclaration"
  }

  function DeclarationOf(statement: Value): Value {
    if IsExport(statement) then Part(statement, "declaration") else statement
  }

  /** The bound names of one field of each listed node. */
  function NamesOfPart(key: string): Value -> set<string> {
    (v: Value) => BoundNames(Part(v, key))
  }

  /** What one statement declares in its own list. */
  function StatementNames(statement: Value): set<string> {
    var declaration := DeclarationOf(statement);
    if TypeOf(declaration) == "FunctionDeclaration" || TypeOf(declaration) == "ClassDeclaration" then
      BoundNames(Part(declaration, "id"))
    else if TypeOf(declaration) == "VariableDeclaration" then
      Union(NamesOfPart("id"), ItemsOf(Part(declaration, "declarations")))
    else if TypeOf(statement) == "ImportDeclaration" then
      Union(NamesOfPart("local"), ItemsOf(Part(statement, "specifiers")))
    else {}
  }

  /** The `let`, `const`, class, function, and import names declared directly in a list. */
  function LexicalNames(statements: Value): set<string> {
    Union(StatementNames, ListOf(statements))
  }

  method CollectParts(vs: seq<Value>, key: string, names: set<string>) returns (r: set<string>)
    ensures r == names + Union(NamesOfPart(key), vs)
  {
    r := names;
    for i := 0 to |vs|
      invariant r == names + Union(NamesOfPart(key), vs[..i])
    {
      r := CollectBoundNames(Part(vs[i], key), r);
      UnionNext(NamesOfPart(key), vs, i);
    }
    assert vs[..|vs|] == vs;
  }

  lemma UnionNext<T>(f: T -> set<string>, vs: seq<T>, i: nat)
    requires i < |vs|
    ensures Union(f, vs[..i + 1]) == Union(f, vs[..i]) + f(vs[i])
  {
    assert vs[..i + 1] == vs[..i] + [vs[i]];
    UnionConcat(f, vs[..i], [vs[i]]);
    UnionOne(f, vs[i]);
  }

  method CollectLexicalNames(statements: Value, names: set<string>) returns (r: set<string>)
    ensures r == names + LexicalNames(statements)
  {
    r := names;
    var list := ListOf(statements);
    for i := 0 to |list|
      invariant r == names + Union(StatementNames, list[..i])
    {
      r := CollectStatement(list[i], r);
      UnionNext(StatementNames, list, i);
    }
    assert list[..|list|] == list;
  }

  method CollectStatement(statement: Value, names: set<string>) returns (r: set<string>)
    ensures r == names + StatementNames(statement)
  {
    r := names;
    var declaration := DeclarationOf(statement);
    if TypeOf(declaration) == "FunctionDeclaration" || TypeOf(declaration) == "ClassDeclaration" {
      r := CollectBoundNames(Part(declaration, "id"), r);
    } else if TypeOf(declaration) == "VariableDeclaration" {
      r := CollectParts(ItemsOf(Part(declaration, "declarations")), "id", r);
    } else if TypeOf(statement) == "ImportDeclaration" {
      r := CollectParts(ItemsOf(Part(statement, "specifiers")), "local", r);
    }
  }

  // ----- Hoisted names of a body -----

  /** The fields through which a `var` declaration is hoisted. */
  function StatementKeys(type': string): (keys: seq<string>)
    ensures DistinctKeys(keys)
  {
    if type' == "ExportNamedDeclaration" then ["declaration"]
    else if type' in ["BlockStatement", "LabeledStatement", "WithStatement", "WhileStatement", "DoWhileStatement",
                      "CatchClause"] then ["body"]
    else if type' == "IfStatement" then ["consequent", "alternate"]
    else if type' == "ForStatement" then ["init", "body"]
    else if type' == "ForInStatement" || type' == "ForOfStatement" then ["left", "body"]
    else if type' == "TryStatement" then ["block", "handler", "finalizer"]
    else if type' == "SwitchStatement" then ["cases"]
    else if type' == "SwitchCase" then ["consequent"]
    else []
  }

  function OwnVars(v: Value): set<string> {
    if TypeOf(v) == "VariableDeclaration" && Part(v, "kind") == Text("var") then LexicalNames(v) else {}
  }

  /** The `var` names anywhere in a body, outside nested functions and classes. */
  function HoistedNames(v: Value): set<string>
    decreases Size(v)
  {
    match v
    case Items(items) =>
      ItemsAreSmaller(items);
      set i, n | 0 <= i < |items| && n in HoistedNames(items[i]) :: n
    case Node(_) =>
      OwnVars(v) + set k, n | k in StatementKeys(TypeOf(v)) && n in HoistedNames(Get(v, k)) :: n
    case _ => {}
  }

  lemma HoistedNamesOfFields(v: Value, keys: seq<string>)
    requires v.Node? && keys == StatementKeys(TypeOf(v))
    ensures HoistedNames(v) == OwnVars(v) + Union(HoistedNames, Gets(v, keys))
  {
    forall n
      ensures n in Union(HoistedNames, Gets(v, keys)) <==> exists k :: k in keys && n in HoistedNames(Get(v, k))
    {
      if n in Union(HoistedNames, Gets(v, keys)) {
        var i :| 0 <= i < |keys| && n in HoistedNames(Gets(v, keys)[i]);
        assert keys[i] in keys;
      }
      if exists k :: k in keys && n in HoistedNames(Get(v, k)) {
        var k :| k in keys && n in HoistedNames(Get(v, k));
        var i :| 0 <= i < |keys| && keys[i] == k;
        assert Gets(v, keys)[i] == Get(v, k);
      }
    }
  }

  lemma HoistedNamesOfItems(v: Value)
    requires v.Items?
    ensures HoistedNames(v) == Union(HoistedNames, v.items)
  {}

  method ExpandStatement(value: Value) returns (own: set<string>, pushed: seq<Value>)
    ensures HoistedNames(value) == own + Union(HoistedNames, pushed)
    ensures (value == Atom && pushed == []) || TotalSize(pushed) < Size(value)
  {
    own, pushed := {}, [];
    if value.Items? {
      pushed := value.items;
      HoistedNamesOfItems(value);
    } else if value.Node? {
      if TypeOf(value) == "VariableDeclaration" && Part(value, "kind") == Text("var") {
        own := CollectLexicalNames(value, {});
      }
      pushed := Gets(value, StatementKeys(TypeOf(value)));
      HoistedNamesOfFields(value, StatementKeys(TypeOf(value)));
      GetsAreSmaller(value, StatementKeys(TypeOf(value)));
    }
  }

  method CollectHoistedNames(statements: Value, names: set<string>) returns (r: set<string>)
    ensures r == names + HoistedNames(statements)
  {
    r := names;
    var pending := [statements];
    UnionOne(HoistedNames, statements);
    while pending != []
      invariant r + Union(HoistedNames, pending) == names + HoistedNames(statements)
      decreases TotalSize(pending), |pending|
    {
      var rest, value := pending[..|pending| - 1], pending[|pending| - 1];
      var own, pushed := ExpandStatement(value);
      PopAndPush(HoistedNames, pending, own, pushed);
      PushIsSmaller(pending, pushed);
      r := r + own;
      pending := rest + pushed;
    }
  }
}
