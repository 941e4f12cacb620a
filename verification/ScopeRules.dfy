/**
 Which names each kind of syntax node leaves free (tools/test262-source.ts): the free names of
 its fields, read as bindings or as references, less the names that it declares for that field.
 */
module ScopeRules {
  import opened SyntaxNames
  import opened ReferenceWalk

  /** How a field is read. */
  type Reading = string -> Mode

  /** Which names are declared for a field. */
  type Declaring = string -> set<string>

  /** A name is free in some field, read this way, and not declared for it. */
  ghost predicate FreeInFields(v: Value, hostMembers: set<string>, reading: Reading, declaring: Declaring, n: string)
    requires v.Node?
  {
    exists i | 0 <= i < |v.fields| ::
      && v.fields[i].key !in METADATA && n !in declaring(v.fields[i].key)
      && n in Free(v.fields[i].value, reading(v.fields[i].key), hostMembers)
  }

  /** The free names of a node are those of its fields, read this way, less what is declared for them. */
  ghost predicate Leaves(v: Value, mode: Mode, hostMembers: set<string>, reading: Reading, declaring: Declaring) {
    && v.Node?
    && forall n :: n in Free(v, mode, hostMembers) <==> FreeInFields(v, hostMembers, reading, declaring, n)
  }

  /** How the walk treats one field, said with those two functions; a field nothing is free in may be skipped. */
  ghost predicate Treats(v: Value, mode: Mode, hostMembers: set<string>, reading: Reading, declaring: Declaring,
                         key: string)
  {
    if reading(key) == Skip then
      ModeOf(v, key, mode, hostMembers) == Skip || forall n :: Covered(Declared(v, key), n)
    else
      && ModeOf(v, key, mode, hostMembers) == reading(key)
      && forall n :: Covered(Declared(v, key), n) <==> n in declaring(key)
  }

  lemma TreatedField(v: Value, mode: Mode, hostMembers: set<string>, reading: Reading, declaring: Declaring, i: nat,
                     n: string)
    requires v.Node? && i < |v.fields| && Treats(v, mode, hostMembers, reading, declaring, v.fields[i].key)
    ensures n in FieldFree(v, mode, v.fields[i], hostMembers) <==>
      && n !in declaring(v.fields[i].key)
      && n in Free(v.fields[i].value, reading(v.fields[i].key), hostMembers)
  {}

  lemma TreatedNode(v: Value, mode: Mode, hostMembers: set<string>, reading: Reading, declaring: Declaring)
    requires v.Node? && TypeOf(v) != "Identifier" && mode != Skip
    requires forall key :: Treats(v, mode, hostMembers, reading, declaring, key)
    ensures Leaves(v, mode, hostMembers, reading, declaring)
  {
    forall n ensures n in Free(v, mode, hostMembers) <==> FreeInFields(v, hostMembers, reading, declaring, n) {
      if n in Free(v, mode, hostMembers) {
        var i := FreeInField(v, mode, hostMembers, n);
        TreatedField(v, mode, hostMembers, reading, declaring, i, n);
      }
      if FreeInFields(v, hostMembers, reading, declaring, n) {
        var i :| 0 <= i < |v.fields| && v.fields[i].key !in METADATA && n !in declaring(v.fields[i].key)
          && n in Free(v.fields[i].value, reading(v.fields[i].key), hostMembers);
        TreatedField(v, mode, hostMembers, reading, declaring, i, n);
      }
    }
  }

  lemma CoveredByOne(names: set<string>, n: string)
    ensures Covered([Names(names)], n) <==> n in names
  {
    assert [Names(names)][0].names == names;
  }

  lemma CoveredByTwo(a: set<string>, b: set<string>, n: string)
    ensures Covered([Names(a), Names(b)], n) <==> n in a || n in b
  {
    assert [Names(a), Names(b)][0].names == a && [Names(a), Names(b)][1].names == b;
  }

  /** Every field is an expression or a statement. */
  function AllReferences(): Reading {
    (key: string) => Reference
  }

  /** One field holds a pattern. */
  function PatternIn(pattern: string): Reading {
    (key: string) => if key == pattern then Binding else Reference
  }

  /** One field is a name but not a reference. */
  function NoReferenceIn(field: string): Reading {
    (key: string) => if key == field then Skip else Reference
  }

  function Nothing(): Declaring {
    (key: string) => {}
  }

  function Everywhere(names: set<string>): Declaring {
    (key: string) => names
  }

  /** One field sees these names. */
  function Only(field: string, names: set<string>): Declaring {
    (key: string) => if key == field then names else {}
  }

  function AllBut(field: string, names: set<string>): Declaring {
    (key: string) => if key == field then {} else names
  }

  /** What the scopes of a field cover, when there is at most one. */
  lemma CoveredNames(scopes: seq<Scope>, names: set<string>)
    requires scopes == [Names(names)] || (scopes == [] && names == {})
    ensures forall n :: Covered(scopes, n) <==> n in names
  {
    forall n ensures Covered(scopes, n) <==> n in names {
      if scopes != [] {
        CoveredByOne(names, n);
      }
    }
  }

  /** At most one scope for each field, and no field skipped. */
  lemma OneScopeNode(v: Value, hostMembers: set<string>, reading: Reading, declaring: Declaring)
    requires v.Node? && TypeOf(v) != "Identifier"
    requires forall key :: ModeOf(v, key, Reference, hostMembers) == reading(key) != Skip
    requires forall key :: OneScope(v, declaring, key)
    ensures Leaves(v, Reference, hostMembers, reading, declaring)
  {
    forall key ensures Treats(v, Reference, hostMembers, reading, declaring, key) {
      assert ModeOf(v, key, Reference, hostMembers) == reading(key);
      assert OneScope(v, declaring, key);
      CoveredNames(Declared(v, key), declaring(key));
    }
    TreatedNode(v, Reference, hostMembers, reading, declaring);
  }

  ghost predicate OneScope(v: Value, declaring: Declaring, key: string) {
    Declared(v, key) == [Names(declaring(key))] || (Declared(v, key) == [] && declaring(key) == {})
  }

  // ----- Nodes with a scope -----

  lemma ProgramMode(v: Value, hostMembers: set<string>, key: string)
    requires TypeOf(v) == "Program" || TypeOf(v) == "StaticBlock"
    ensures ModeOf(v, key, Reference, hostMembers) == Reference
  {}

  lemma ProgramScope(v: Value, key: string)
    requires TypeOf(v) == "Program" || TypeOf(v) == "StaticBlock"
    ensures Declared(v, key) == [Names(HoistedNames(Part(v, "body")) + LexicalNames(Part(v, "body")))]
  {}

  /** A program or a static block sees its hoisted and its lexical names. */
  lemma ProgramLeaves(v: Value, hostMembers: set<string>)
    requires v.Node? && (TypeOf(v) == "Program" || TypeOf(v) == "StaticBlock")
    ensures var body := Part(v, "body");
      Leaves(v, Reference, hostMembers, AllReferences(), Everywhere(HoistedNames(body) + LexicalNames(body)))
  {
    var body := Part(v, "body");
    var declaring := Everywhere(HoistedNames(body) + LexicalNames(body));
    forall key
      ensures ModeOf(v, key, Reference, hostMembers) == AllReferences()(key) && OneScope(v, declaring, key)
    {
      ProgramMode(v, hostMembers, key);
      ProgramScope(v, key);
    }
    OneScopeNode(v, hostMembers, AllReferences(), declaring);
  }

  lemma BlockMode(v: Value, hostMembers: set<string>, key: string)
    requires TypeOf(v) == "BlockStatement"
    ensures ModeOf(v, key, Reference, hostMembers) == Reference
  {}

  lemma BlockScope(v: Value, key: string)
    requires TypeOf(v) == "BlockStatement"
    ensures Declared(v, key) == [Names(LexicalNames(Part(v, "body")))]
  {}

  /** A block sees what its own list declares. */
  lemma BlockLeaves(v: Value, hostMembers: set<string>)
    requires v.Node? && TypeOf(v) == "BlockStatement"
    ensures Leaves(v, Reference, hostMembers, AllReferences(), Everywhere(LexicalNames(Part(v, "body"))))
  {
    var declaring := Everywhere(LexicalNames(Part(v, "body")));
    forall key
      ensures ModeOf(v, key, Reference, hostMembers) == AllReferences()(key) && OneScope(v, declaring, key)
    {
      BlockMode(v, hostMembers, key);
      BlockScope(v, key);
    }
    OneScopeNode(v, hostMembers, AllReferences(), declaring);
  }

  lemma SwitchField(v: Value, hostMembers: set<string>, key: string, names: set<string>)
    requires TypeOf(v) == "SwitchStatement" && names == Union(CaseNames, ItemsOf(Part(v, "cases")))
    ensures ModeOf(v, key, Reference, hostMembers) == Reference
    ensures Declared(v, key) == if key == "cases" then [Names(names)] else []
  {}

  /** The names that some case of a `switch` declares. */
  lemma CasesDeclare(cases: seq<Value>, names: set<string>)
    requires forall n :: n in names <==> exists c :: c in cases && n in LexicalNames(Part(c, "consequent"))
    ensures names == Union(CaseNames, cases)
  {
    forall n ensures n in names <==> n in Union(CaseNames, cases) {
      if n in names {
        var c :| c in cases && n in LexicalNames(Part(c, "consequent"));
        var i :| 0 <= i < |cases| && cases[i] == c;
        assert n in CaseNames(cases[i]);
      }
    }
  }

  /** The cases of a `switch` share a scope that its discriminant does not see. */
  lemma SwitchLeaves(v: Value, hostMembers: set<string>, names: set<string>)
    requires v.Node? && TypeOf(v) == "SwitchStatement"
    requires forall n :: n in names <==>
      exists c :: c in ItemsOf(Part(v, "cases")) && n in LexicalNames(Part(c, "consequent"))
    ensures Leaves(v, Reference, hostMembers, AllReferences(), Only("cases", names))
  {
    CasesDeclare(ItemsOf(Part(v, "cases")), names);
    forall key
      ensures ModeOf(v, key, Reference, hostMembers) == AllReferences()(key) && OneScope(v, Only("cases", names), key)
    {
      SwitchField(v, hostMembers, key, names);
    }
    OneScopeNode(v, hostMembers, AllReferences(), Only("cases", names));
  }

  /** The part of a `for` statement that declares names. */
  function HeadOf(v: Value): Value {
    if TypeOf(v) == "ForStatement" then Part(v, "init") else Part(v, "left")
  }

  lemma ForModes(v: Value, hostMembers: set<string>, key: string)
    requires TypeOf(v) == "ForStatement" || TypeOf(v) == "ForInStatement" || TypeOf(v) == "ForOfStatement"
    ensures ModeOf(v, key, Reference, hostMembers) == Reference
  {}

  lemma ForScopes(v: Value, key: string)
    requires TypeOf(v) == "ForStatement" || TypeOf(v) == "ForInStatement" || TypeOf(v) == "ForOfStatement"
    ensures Declared(v, key) == [Names(LexicalNames(HeadOf(v)))]
  {}

  /** A `for` statement sees what its head declares. */
  lemma ForLeaves(v: Value, hostMembers: set<string>)
    requires v.Node?
    requires TypeOf(v) == "ForStatement" || TypeOf(v) == "ForInStatement" || TypeOf(v) == "ForOfStatement"
    ensures Leaves(v, Reference, hostMembers, AllReferences(), Everywhere(LexicalNames(HeadOf(v))))
  {
    var declaring := Everywhere(LexicalNames(HeadOf(v)));
    forall key
      ensures ModeOf(v, key, Reference, hostMembers) == AllReferences()(key) && OneScope(v, declaring, key)
    {
      ForModes(v, hostMembers, key);
      ForScopes(v, key);
    }
    OneScopeNode(v, hostMembers, AllReferences(), declaring);
  }

  lemma CatchMode(v: Value, hostMembers: set<string>, key: string)
    requires TypeOf(v) == "CatchClause"
    ensures ModeOf(v, key, Reference, hostMembers) == PatternIn("param")(key)
  {}

  lemma CatchScope(v: Value, key: string)
    requires TypeOf(v) == "CatchClause"
    ensures Declared(v, key) == [Names(BoundNames(Part(v, "param")))]
  {}

  /** A `catch` clause binds its parameter. */
  lemma CatchClauseLeaves(v: Value, hostMembers: set<string>)
    requires v.Node? && TypeOf(v) == "CatchClause"
    ensures Leaves(v, Reference, hostMembers, PatternIn("param"), Everywhere(BoundNames(Part(v, "param"))))
  {
    var declaring := Everywhere(BoundNames(Part(v, "param")));
    forall key
      ensures ModeOf(v, key, Reference, hostMembers) == PatternIn("param")(key) && OneScope(v, declaring, key)
    {
      CatchMode(v, hostMembers, key);
      CatchScope(v, key);
    }
    OneScopeNode(v, hostMembers, PatternIn("param"), declaring);
  }

  lemma WithMode(v: Value, hostMembers: set<string>, key: string)
    requires TypeOf(v) == "WithStatement"
    ensures ModeOf(v, key, Reference, hostMembers) == Reference
  {}

  lemma WithScope(v: Value, key: string)
    requires TypeOf(v) == "WithStatement"
    ensures Declared(v, key) == if key == "body" then [Object] else []
  {}

  /** Nothing is free in the body of a `with` statement. */
  lemma WithLeaves(v: Value, hostMembers: set<string>)
    requires v.Node? && TypeOf(v) == "WithStatement"
    ensures Leaves(v, Reference, hostMembers, NoReferenceIn("body"), Nothing())
  {
    forall key ensures Treats(v, Reference, hostMembers, NoReferenceIn("body"), Nothing(), key) {
      WithMode(v, hostMembers, key);
      WithScope(v, key);
      if key == "body" {
        assert Declared(v, key)[0].Object?;
      } else {
        CoveredNames(Declared(v, key), {});
      }
    }
    TreatedNode(v, Reference, hostMembers, NoReferenceIn("body"), Nothing());
  }

  lemma ClassMode(v: Value, hostMembers: set<string>, key: string)
    requires TypeOf(v) == "ClassDeclaration" || TypeOf(v) == "ClassExpression"
    ensures ModeOf(v, key, Reference, hostMembers) == PatternIn("id")(key)
  {}

  lemma ClassScope(v: Value, key: string)
    requires TypeOf(v) == "ClassDeclaration" || TypeOf(v) == "ClassExpression"
    ensures Declared(v, key) == if key == "id" then [] else [Names(BoundNames(Part(v, "id")))]
  {}

  /** A class binds its name for everything but the name itself. */
  lemma ClassLeaves(v: Value, hostMembers: set<string>)
    requires v.Node? && (TypeOf(v) == "ClassDeclaration" || TypeOf(v) == "ClassExpression")
    ensures Leaves(v, Reference, hostMembers, PatternIn("id"), AllBut("id", BoundNames(Part(v, "id"))))
  {
    var declaring := AllBut("id", BoundNames(Part(v, "id")));
    forall key
      ensures ModeOf(v, key, Reference, hostMembers) == PatternIn("id")(key) && OneScope(v, declaring, key)
    {
      ClassMode(v, hostMembers, key);
      ClassScope(v, key);
    }
    OneScopeNode(v, hostMembers, PatternIn("id"), declaring);
  }

  // ----- Functions -----

  const FUNCTIONS: set<string> := {
    "FunctionDeclaration", "FunctionExpression", "ArrowFunctionExpression", "ObjectMethod", "ClassMethod",
    "ClassPrivateMethod"
  }

  /** Names and parameters are patterns; a key that is not computed is no reference. */
  function InFunction(v: Value): Reading {
    (key: string) =>
      if key == "id" || key == "params" then Binding
      else if key == "key" && Part(v, "computed") != Flag(true) then Skip
      else Reference
  }

  /** The parameters, and for a function expression its own name. */
  function Parameters(v: Value): set<string> {
    BoundNames(Part(v, "params")) + if TypeOf(v) == "FunctionExpression" then BoundNames(Part(v, "id")) else {}
  }

  /** What a body that is a block declares or hoists. */
  function InBody(v: Value): set<string> {
    var block := Part(v, "body");
    if TypeOf(block) == "BlockStatement" then HoistedNames(Part(block, "body")) + LexicalNames(Part(block, "body"))
    else {}
  }

  /** The parameters see each other, and the body sees them and what it declares itself. */
  function InFunctionScope(v: Value): Declaring {
    (key: string) =>
      if key == "params" then Parameters(v) else if key == "body" then Parameters(v) + InBody(v) else {}
  }

  lemma FunctionModes(v: Value, hostMembers: set<string>, key: string)
    requires TypeOf(v) in FUNCTIONS
    ensures ModeOf(v, key, Reference, hostMembers) == InFunction(v)(key)
  {}

  lemma FunctionScopes(v: Value, key: string)
    requires TypeOf(v) in FUNCTIONS
    ensures forall n :: Covered(Declared(v, key), n) <==> n in InFunctionScope(v)(key)
  {
    assert IsFunction(TypeOf(v));
    if key == "params" {
      CoveredNames(Declared(v, key), Parameters(v));
    } else if key == "body" {
      forall n ensures Covered(Declared(v, key), n) <==> n in Parameters(v) + InBody(v) {
        CoveredByTwo(Parameters(v), InBody(v), n);
      }
    }
  }

  lemma FunctionLeaves(v: Value, hostMembers: set<string>)
    requires v.Node? && TypeOf(v) in FUNCTIONS
    ensures Leaves(v, Reference, hostMembers, InFunction(v), InFunctionScope(v))
  {
    forall key ensures Treats(v, Reference, hostMembers, InFunction(v), InFunctionScope(v), key) {
      FunctionModes(v, hostMembers, key);
      FunctionScopes(v, key);
    }
    TreatedNode(v, Reference, hostMembers, InFunction(v), InFunctionScope(v));
  }

  // ----- Nodes without a scope -----

  /** A node that declares nothing for any field. */
  lemma ScopelessLeaves(v: Value, mode: Mode, hostMembers: set<string>, reading: Reading)
    requires v.Node? && TypeOf(v) != "Identifier" && mode != Skip
    requires forall key :: ModeOf(v, key, mode, hostMembers) == reading(key) && Declared(v, key) == []
    ensures Leaves(v, mode, hostMembers, reading, Nothing())
  {
    forall key ensures Treats(v, mode, hostMembers, reading, Nothing(), key) {
      assert ModeOf(v, key, mode, hostMembers) == reading(key) && Declared(v, key) == [];
      CoveredNames(Declared(v, key), {});
    }
    TreatedNode(v, mode, hostMembers, reading, Nothing());
  }

  const SCOPES: set<string> := {
    "Program", "StaticBlock", "BlockStatement", "SwitchStatement", "ForStatement", "ForInStatement", "ForOfStatement",
    "CatchClause", "WithStatement", "ClassDeclaration", "ClassExpression"
  }

  /** All other nodes declare nothing. */
  lemma OtherScopes(v: Value, key: string)
    requires TypeOf(v) !in SCOPES && TypeOf(v) !in FUNCTIONS
    ensures Declared(v, key) == []
  {}

  lemma DeclaratorMode(v: Value, hostMembers: set<string>, key: string)
    requires TypeOf(v) == "VariableDeclarator"
    ensures ModeOf(v, key, Reference, hostMembers) == PatternIn("id")(key)
  {}

  lemma DeclaratorScope(v: Value, key: string)
    requires TypeOf(v) == "VariableDeclarator"
    ensures Declared(v, key) == []
  {}

  /** A declarator holds a pattern and an initializer. */
  lemma DeclaratorLeaves(v: Value, hostMembers: set<string>)
    requires v.Node? && TypeOf(v) == "VariableDeclarator"
    ensures Leaves(v, Reference, hostMembers, PatternIn("id"), Nothing())
  {
    forall key ensures ModeOf(v, key, Reference, hostMembers) == PatternIn("id")(key) && Declared(v, key) == [] {
      DeclaratorMode(v, hostMembers, key);
      DeclaratorScope(v, key);
    }
    ScopelessLeaves(v, Reference, hostMembers, PatternIn("id"));
  }

  /** Only the local name of an import is a pattern, and nothing of it a reference. */
  function InImport(): Reading {
    (key: string) => if key == "local" then Binding else Skip
  }

  lemma ImportMode(v: Value, hostMembers: set<string>, key: string)
    requires TypeOf(v) in {"ImportSpecifier", "ImportDefaultSpecifier", "ImportNamespaceSpecifier"}
    ensures ModeOf(v, key, Reference, hostMembers) == InImport()(key)
  {}

  lemma ImportScope(v: Value, key: string)
    requires TypeOf(v) in {"ImportSpecifier", "ImportDefaultSpecifier", "ImportNamespaceSpecifier"}
    ensures Declared(v, key) == []
  {}

  lemma ImportLeaves(v: Value, hostMembers: set<string>)
    requires v.Node? && TypeOf(v) in {"ImportSpecifier", "ImportDefaultSpecifier", "ImportNamespaceSpecifier"}
    ensures Leaves(v, Reference, hostMembers, InImport(), Nothing())
  {
    assert TypeOf(v) != "Identifier";
    forall key ensures ModeOf(v, key, Reference, hostMembers) == InImport()(key) && Declared(v, key) == [] {
      ImportMode(v, hostMembers, key);
      ImportScope(v, key);
    }
    ScopelessLeaves(v, Reference, hostMembers, InImport());
  }

  lemma ExportMode(v: Value, hostMembers: set<string>, key: string)
    requires TypeOf(v) in {"ExportSpecifier", "ExportNamespaceSpecifier", "ExportDefaultSpecifier"}
    ensures ModeOf(v, key, Reference, hostMembers) == NoReferenceIn("exported")(key)
  {}

  lemma ExportScope(v: Value, key: string)
    requires TypeOf(v) in {"ExportSpecifier", "ExportNamespaceSpecifier", "ExportDefaultSpecifier"}
    ensures Declared(v, key) == []
  {}

  /** The exported name is no reference. */
  lemma ExportLeaves(v: Value, hostMembers: set<string>)
    requires v.Node? && TypeOf(v) in {"ExportSpecifier", "ExportNamespaceSpecifier", "ExportDefaultSpecifier"}
    ensures Leaves(v, Reference, hostMembers, NoReferenceIn("exported"), Nothing())
  {
    assert TypeOf(v) != "Identifier";
    forall key
      ensures ModeOf(v, key, Reference, hostMembers) == NoReferenceIn("exported")(key) && Declared(v, key) == []
    {
      ExportMode(v, hostMembers, key);
      ExportScope(v, key);
    }
    ScopelessLeaves(v, Reference, hostMembers, NoReferenceIn("exported"));
  }

  lemma ReExportMode(v: Value, hostMembers: set<string>, key: string)
    requires TypeOf(v) == "ExportNamedDeclaration"
    ensures ModeOf(v, key, Reference, hostMembers)
      == (if key == "specifiers" && Part(v, "source") != Atom then Skip else Reference)
  {}

  lemma ReExportScope(v: Value, key: string)
    requires TypeOf(v) == "ExportNamedDeclaration"
    ensures Declared(v, key) == []
  {}

  /** The specifiers of an export from another module are no references. */
  lemma ReExportLeaves(v: Value, hostMembers: set<string>)
    requires v.Node? && TypeOf(v) == "ExportNamedDeclaration"
    ensures var reading := if Part(v, "source") == Atom then AllReferences() else NoReferenceIn("specifiers");
      Leaves(v, Reference, hostMembers, reading, Nothing())
  {
    var reading := if Part(v, "source") == Atom then AllReferences() else NoReferenceIn("specifiers");
    forall key ensures ModeOf(v, key, Reference, hostMembers) == reading(key) && Declared(v, key) == [] {
      ReExportMode(v, hostMembers, key);
      ReExportScope(v, key);
    }
    ScopelessLeaves(v, Reference, hostMembers, reading);
  }

  lemma LabelMode(v: Value, hostMembers: set<string>, key: string)
    requires TypeOf(v) in {"LabeledStatement", "BreakStatement", "ContinueStatement"}
    ensures ModeOf(v, key, Reference, hostMembers) == NoReferenceIn("label")(key)
  {}

  lemma LabelScope(v: Value, key: string)
    requires TypeOf(v) in {"LabeledStatement", "BreakStatement", "ContinueStatement"}
    ensures Declared(v, key) == []
  {}

  /** A label is no reference. */
  lemma LabelLeaves(v: Value, hostMembers: set<string>)
    requires v.Node? && TypeOf(v) in {"LabeledStatement", "BreakStatement", "ContinueStatement"}
    ensures Leaves(v, Reference, hostMembers, NoReferenceIn("label"), Nothing())
  {
    assert TypeOf(v) != "Identifier";
    forall key
      ensures ModeOf(v, key, Reference, hostMembers) == NoReferenceIn("label")(key) && Declared(v, key) == []
    {
      LabelMode(v, hostMembers, key);
      LabelScope(v, key);
    }
    ScopelessLeaves(v, Reference, hostMembers, NoReferenceIn("label"));
  }

  lemma MetaField(v: Value, hostMembers: set<string>, key: string)
    requires TypeOf(v) in {"MetaProperty", "PrivateName", "ImportAttribute"}
    ensures ModeOf(v, key, Reference, hostMembers) == Skip
  {}

  /** Nothing is free in these. */
  lemma MetaLeavesNothing(v: Value, hostMembers: set<string>)
    requires v.Node? && TypeOf(v) in {"MetaProperty", "PrivateName", "ImportAttribute"}
    ensures Free(v, Reference, hostMembers) == {}
  {
    assert TypeOf(v) != "Identifier";
    forall n ensures n !in Free(v, Reference, hostMembers) {
      if n in Free(v, Reference, hostMembers) {
        var i := FreeInField(v, Reference, hostMembers, n);
        MetaField(v, hostMembers, v.fields[i].key);
      }
    }
  }

  /** A key is a reference only if it is computed. */
  function KeyIn(v: Value, field: string): Reading {
    (key: string) => if key == field && Part(v, "computed") != Flag(true) then Skip else Reference
  }

  lemma PropertyMode(v: Value, hostMembers: set<string>, key: string)
    requires TypeOf(v) in {"ObjectProperty", "ClassProperty", "ClassAccessorProperty", "ClassPrivateProperty"}
    ensures ModeOf(v, key, Reference, hostMembers) == KeyIn(v, "key")(key)
  {}

  lemma PropertyScope(v: Value, key: string)
    requires TypeOf(v) in {"ObjectProperty", "ClassProperty", "ClassAccessorProperty", "ClassPrivateProperty"}
    ensures Declared(v, key) == []
  {}

  lemma PropertyLeaves(v: Value, hostMembers: set<string>)
    requires v.Node?
    requires TypeOf(v) in {"ObjectProperty", "ClassProperty", "ClassAccessorProperty", "ClassPrivateProperty"}
    ensures Leaves(v, Reference, hostMembers, KeyIn(v, "key"), Nothing())
  {
    assert TypeOf(v) != "Identifier";
    forall key ensures ModeOf(v, key, Reference, hostMembers) == KeyIn(v, "key")(key) && Declared(v, key) == [] {
      PropertyMode(v, hostMembers, key);
      PropertyScope(v, key);
    }
    ScopelessLeaves(v, Reference, hostMembers, KeyIn(v, "key"));
  }

  /** `$262.name`, or `$262["name"]`, for a member that the host installs. */
  predicate ReadsHost(v: Value, hostMembers: set<string>) {
    var property := Part(v, "property");
    && TypeOf(Part(v, "object")) == "Identifier" && Part(Part(v, "object"), "name") == Text("$262")
    && exists n | n in hostMembers ::
         if Part(v, "computed") == Flag(true) then
           TypeOf(property) == "StringLiteral" && Part(property, "value") == Text(n)
         else TypeOf(property) == "Identifier" && Part(property, "name") == Text(n)
  }

  /** A property that is not computed is no reference, and neither is `$262` when the host has the member. */
  function InMember(v: Value, hostMembers: set<string>): Reading {
    (key: string) =>
      if key == "property" && Part(v, "computed") != Flag(true) then Skip
      else if key == "object" && ReadsHost(v, hostMembers) then Skip
      else Reference
  }

  function MemberMode(v: Value, hostMembers: set<string>, key: string): Mode {
    if key == "property" then IfComputed(v)
    else if key == "object" && HostMemberRead(v, hostMembers) then Skip
    else Reference
  }

  lemma HostReads(v: Value, hostMembers: set<string>)
    requires TypeOf(v) == "MemberExpression" || TypeOf(v) == "OptionalMemberExpression"
    ensures HostMemberRead(v, hostMembers) <==> ReadsHost(v, hostMembers)
  {}

  lemma PlainMemberMode(v: Value, hostMembers: set<string>, key: string)
    requires TypeOf(v) == "MemberExpression"
    ensures ModeOf(v, key, Reference, hostMembers) == MemberMode(v, hostMembers, key)
  {}

  lemma OptionalMemberMode(v: Value, hostMembers: set<string>, key: string)
    requires TypeOf(v) == "OptionalMemberExpression"
    ensures ModeOf(v, key, Reference, hostMembers) == MemberMode(v, hostMembers, key)
  {}

  lemma MemberScope(v: Value, key: string)
    requires TypeOf(v) == "MemberExpression" || TypeOf(v) == "OptionalMemberExpression"
    ensures Declared(v, key) == []
  {}

  lemma MemberLeaves(v: Value, hostMembers: set<string>)
    requires v.Node? && (TypeOf(v) == "MemberExpression" || TypeOf(v) == "OptionalMemberExpression")
    ensures Leaves(v, Reference, hostMembers, InMember(v, hostMembers), Nothing())
  {
    HostReads(v, hostMembers);
    forall key
      ensures ModeOf(v, key, Reference, hostMembers) == InMember(v, hostMembers)(key) && Declared(v, key) == []
    {
      if TypeOf(v) == "MemberExpression" {
        PlainMemberMode(v, hostMembers, key);
      } else {
        OptionalMemberMode(v, hostMembers, key);
      }
      MemberScope(v, key);
    }
    ScopelessLeaves(v, Reference, hostMembers, InMember(v, hostMembers));
  }

  lemma UnaryMode(v: Value, hostMembers: set<string>, key: string)
    requires TypeOf(v) == "UnaryExpression"
    ensures ModeOf(v, key, Reference, hostMembers) ==
      (if Part(v, "operator") == Text("typeof") && key == "argument" && TypeOf(Part(v, "argument")) == "Identifier"
       then Skip else Reference)
  {}

  lemma UnaryScope(v: Value, key: string)
    requires TypeOf(v) == "UnaryExpression"
    ensures Declared(v, key) == []
  {}

  /** A name under `typeof` is no reference that must resolve. */
  lemma UnaryLeaves(v: Value, hostMembers: set<string>)
    requires v.Node? && TypeOf(v) == "UnaryExpression"
    ensures var named := Part(v, "operator") == Text("typeof") && TypeOf(Part(v, "argument")) == "Identifier";
      Leaves(v, Reference, hostMembers, if named then NoReferenceIn("argument") else AllReferences(), Nothing())
  {
    var named := Part(v, "operator") == Text("typeof") && TypeOf(Part(v, "argument")) == "Identifier";
    var reading := if named then NoReferenceIn("argument") else AllReferences();
    forall key ensures ModeOf(v, key, Reference, hostMembers) == reading(key) && Declared(v, key) == [] {
      UnaryMode(v, hostMembers, key);
      UnaryScope(v, key);
    }
    ScopelessLeaves(v, Reference, hostMembers, reading);
  }

  const SPECIAL: set<string> := {
    "VariableDeclarator", "ImportSpecifier", "ImportDefaultSpecifier", "ImportNamespaceSpecifier",
    "ExportNamedDeclaration", "ExportSpecifier", "ExportNamespaceSpecifier", "ExportDefaultSpecifier",
    "MemberExpression", "OptionalMemberExpression", "ObjectProperty", "ClassProperty", "ClassAccessorProperty",
    "ClassPrivateProperty", "LabeledStatement", "BreakStatement", "ContinueStatement", "MetaProperty", "PrivateName",
    "ImportAttribute", "UnaryExpression"
  }

  lemma OtherModes(v: Value, hostMembers: set<string>, key: string)
    requires TypeOf(v) !in SCOPES && TypeOf(v) !in FUNCTIONS && TypeOf(v) !in SPECIAL
    ensures ModeOf(v, key, Reference, hostMembers) == Reference
  {}

  /** Every other node leaves free what its fields leave free. */
  lemma OtherLeaves(v: Value, hostMembers: set<string>)
    requires v.Node? && TypeOf(v) != "Identifier"
    requires TypeOf(v) !in SCOPES && TypeOf(v) !in FUNCTIONS && TypeOf(v) !in SPECIAL
    ensures Leaves(v, Reference, hostMembers, AllReferences(), Nothing())
  {
    forall key ensures ModeOf(v, key, Reference, hostMembers) == AllReferences()(key) && Declared(v, key) == [] {
      OtherModes(v, hostMembers, key);
      OtherScopes(v, key);
    }
    ScopelessLeaves(v, Reference, hostMembers, AllReferences());
  }

  // ----- Names, lists, and patterns -----

  /** An identifier is free where it is a reference. */
  lemma IdentifierLeaves(v: Value, hostMembers: set<string>, n: string)
    requires v.Node? && TypeOf(v) == "Identifier"
    ensures n in Free(v, Reference, hostMembers) <==> Part(v, "name") == Text(n)
    ensures Free(v, Binding, hostMembers) == {}
  {}

  lemma ListLeaves(v: Value, mode: Mode, hostMembers: set<string>, n: string)
    requires v.Items? && mode != Skip
    ensures n in Free(v, mode, hostMembers) <==> exists x :: x in v.items && n in Free(x, mode, hostMembers)
  {
    if x :| x in v.items && n in Free(x, mode, hostMembers) {
      var i :| 0 <= i < |v.items| && v.items[i] == x;
    }
  }

  /** In a pattern, computed keys and defaults are references, and all else is pattern. */
  function InPattern(v: Value): Reading {
    (key: string) =>
      if TypeOf(v) == "ObjectProperty" && key == "key" then
        if Part(v, "computed") == Flag(true) then Reference else Skip
      else if TypeOf(v) == "AssignmentPattern" && key != "left" then Reference
      else Binding
  }

  const PATTERNS: set<string> := {
    "ObjectPattern", "ObjectProperty", "ArrayPattern", "RestElement", "AssignmentPattern"
  }

  lemma PatternMode(v: Value, hostMembers: set<string>, key: string)
    requires TypeOf(v) in PATTERNS
    ensures ModeOf(v, key, Binding, hostMembers) == InPattern(v)(key)
  {}

  lemma PatternScope(v: Value, key: string)
    requires TypeOf(v) in PATTERNS
    ensures Declared(v, key) == []
  {}

  lemma PatternLeaves(v: Value, hostMembers: set<string>)
    requires v.Node? && TypeOf(v) in PATTERNS
    ensures Leaves(v, Binding, hostMembers, InPattern(v), Nothing())
  {
    assert TypeOf(v) != "Identifier";
    forall key ensures ModeOf(v, key, Binding, hostMembers) == InPattern(v)(key) && Declared(v, key) == [] {
      PatternMode(v, hostMembers, key);
      PatternScope(v, key);
    }
    ScopelessLeaves(v, Binding, hostMembers, InPattern(v));
  }

  lemma OtherPatternMode(v: Value, hostMembers: set<string>, key: string)
    requires TypeOf(v) !in PATTERNS
    ensures ModeOf(v, key, Binding, hostMembers) == Reference
  {}

  /** Anything else in the place of a pattern is read as an expression. */
  lemma OtherPatternLeaves(v: Value, hostMembers: set<string>)
    requires v.Node? && TypeOf(v) != "Identifier"
    requires TypeOf(v) !in PATTERNS && TypeOf(v) !in SCOPES && TypeOf(v) !in FUNCTIONS
    ensures Leaves(v, Binding, hostMembers, AllReferences(), Nothing())
  {
    forall key ensures ModeOf(v, key, Binding, hostMembers) == AllReferences()(key) && Declared(v, key) == [] {
      OtherPatternMode(v, hostMembers, key);
      OtherScopes(v, key);
    }
    ScopelessLeaves(v, Binding, hostMembers, AllReferences());
  }
}
