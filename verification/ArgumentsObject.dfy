/**
 `arguments` and `unresolvedReferenceNames` (tools/test262-source.ts): every function but an
 arrow function binds that name for its parameters and its body, which the walk over the tree
 does not know. Exactly when that changes the names it finds.
 */
module ArgumentsObject {
  import opened SyntaxNames
  import opened ReferenceWalk

  const ARGUMENTS: string := "arguments"

  /** Section 10.2.11 of ECMA-262 (FunctionDeclarationInstantiation) makes an arguments object there. */
  predicate BindsArguments(node: Value, key: string) {
    IsFunction(TypeOf(node)) && TypeOf(node) != "ArrowFunctionExpression" && (key == "params" || key == "body")
  }

  /** The scopes of a field, with the binding that a function makes itself. */
  function DeclaredInEdition(node: Value, key: string): seq<Scope> {
    (if BindsArguments(node, key) then [Names({ARGUMENTS})] else []) + Declared(node, key)
  }

  /** The free names of a tree under those scopes. */
  function FreeInEdition(v: Value, mode: Mode, hostMembers: set<string>): set<string>
    decreases Size(v)
  {
    if mode == Skip then {}
    else
      match v
      case Items(items) =>
        ItemsAreSmaller(items);
        set i, n | 0 <= i < |items| && n in FreeInEdition(items[i], mode, hostMembers) :: n
      case Node(fields) =>
        if TypeOf(v) == "Identifier" then OwnReference(mode, v)
        else
          FieldsAreSmaller(fields);
          set i, n | 0 <= i < |fields| && fields[i].key !in METADATA &&
                     n in Unbound(DeclaredInEdition(v, fields[i].key),
                                  FreeInEdition(fields[i].value, ModeOf(v, fields[i].key, mode, hostMembers),
                                                hostMembers)) :: n
      case _ => {}
  }

  /** The path leads into the parameters or the body of a function that binds `arguments`. */
  predicate EntersFunction(v: Value, path: seq<nat>)
    decreases |path|
  {
    && path != []
    && match v
       case Items(items) => path[0] < |items| && EntersFunction(items[path[0]], path[1..])
       case Node(fields) =>
         && path[0] < |fields|
         && (BindsArguments(v, fields[path[0]].key) || EntersFunction(fields[path[0]].value, path[1..]))
       case _ => false
  }

  /** Nothing on the way to an occurrence covers the name, the bindings of functions included. */
  predicate OccursInEdition(v: Value, mode: Mode, hostMembers: set<string>, path: seq<nat>, n: string) {
    Occurs(v, mode, hostMembers, path, n) && !(n == ARGUMENTS && EntersFunction(v, path))
  }

  lemma CoveredInEdition(node: Value, key: string, n: string)
    ensures Covered(DeclaredInEdition(node, key), n)
      <==> Covered(Declared(node, key), n) || (n == ARGUMENTS && BindsArguments(node, key))
  {
    var own := if BindsArguments(node, key) then [Names({ARGUMENTS})] else [];
    CoveredConcat(own, Declared(node, key), n);
    if BindsArguments(node, key) {
      assert own[0].names == {ARGUMENTS};
    }
  }

  /** What one field leaves free. */
  function FieldFreeInEdition(v: Value, mode: Mode, f: Field, hostMembers: set<string>): set<string> {
    Unbound(DeclaredInEdition(v, f.key),
            FreeInEdition(f.value, ModeOf(v, f.key, mode, hostMembers), hostMembers))
  }

  lemma {:induction false} OccurrenceIsFreeInEdition(v: Value, mode: Mode, hostMembers: set<string>, path: seq<nat>,
                                                     n: string)
    requires OccursInEdition(v, mode, hostMembers, path, n)
    ensures n in FreeInEdition(v, mode, hostMembers)
    decreases |path|
  {
    if v.Items? {
      OccurrenceIsFreeInEdition(v.items[path[0]], mode, hostMembers, path[1..], n);
    } else if TypeOf(v) != "Identifier" {
      var f := v.fields[path[0]];
      OccurrenceIsFreeInEdition(f.value, ModeOf(v, f.key, mode, hostMembers), hostMembers, path[1..], n);
      CoveredInEdition(v, f.key, n);
      assert n in FieldFreeInEdition(v, mode, f, hostMembers);
    }
  }

  lemma FieldFreeStays(v: Value, mode: Mode, f: Field, hostMembers: set<string>, n: string)
    requires n in FieldFreeInEdition(v, mode, f, hostMembers)
    ensures n in FreeInEdition(f.value, ModeOf(v, f.key, mode, hostMembers), hostMembers)
    ensures !Covered(DeclaredInEdition(v, f.key), n)
  {}

  lemma FreeInSomeField(v: Value, mode: Mode, hostMembers: set<string>, n: string) returns (i: nat)
    requires v.Node? && TypeOf(v) != "Identifier" && n in FreeInEdition(v, mode, hostMembers)
    ensures i < |v.fields| && v.fields[i].key !in METADATA
    ensures n in FieldFreeInEdition(v, mode, v.fields[i], hostMembers)
  {
    i :| i < |v.fields| && v.fields[i].key !in METADATA && n in FieldFreeInEdition(v, mode, v.fields[i], hostMembers);
  }

  lemma {:induction false} FreeOccursInEdition(v: Value, mode: Mode, hostMembers: set<string>, n: string)
    returns (path: seq<nat>)
    requires n in FreeInEdition(v, mode, hostMembers)
    ensures OccursInEdition(v, mode, hostMembers, path, n)
    decreases Size(v)
  {
    if v.Items? {
      ItemsAreSmaller(v.items);
      var i: nat :| i < |v.items| && n in FreeInEdition(v.items[i], mode, hostMembers);
      var below := FreeOccursInEdition(v.items[i], mode, hostMembers, n);
      path := [i] + below;
    } else if TypeOf(v) == "Identifier" {
      path := [];
    } else {
      FieldsAreSmaller(v.fields);
      var i := FreeInSomeField(v, mode, hostMembers, n);
      var f := v.fields[i];
      FieldFreeStays(v, mode, f, hostMembers, n);
      CoveredInEdition(v, f.key, n);
      var below := FreeOccursInEdition(f.value, ModeOf(v, f.key, mode, hostMembers), hostMembers, n);
      path := [i] + below;
    }
  }

  /** The walk finds every name the edition leaves free, and at most `arguments` beside. */
  lemma OnlyArgumentsDiffers(program: Value, hostMembers: set<string>, n: string)
    ensures n in FreeInEdition(program, Reference, hostMembers) ==> n in Free(program, Reference, hostMembers)
    ensures n != ARGUMENTS ==>
      (n in Free(program, Reference, hostMembers) <==> n in FreeInEdition(program, Reference, hostMembers))
  {
    if n in FreeInEdition(program, Reference, hostMembers) {
      var path := FreeOccursInEdition(program, Reference, hostMembers, n);
      OccurrenceIsFree(program, Reference, hostMembers, path, n);
    }
    if n != ARGUMENTS && n in Free(program, Reference, hostMembers) {
      var path := FreeOccurs(program, Reference, hostMembers, n);
      OccurrenceIsFreeInEdition(program, Reference, hostMembers, path, n);
    }
  }

  /** A name occurs, and every uncovered occurrence is in a function that binds `arguments`. */
  ghost predicate OnlyInFunctions(program: Value, hostMembers: set<string>, n: string) {
    && (exists path :: Occurs(program, Reference, hostMembers, path, n))
    && (forall path | Occurs(program, Reference, hostMembers, path, n) :: EntersFunction(program, path))
  }

  lemma WronglyFreeIff(program: Value, hostMembers: set<string>, n: string)
    requires n == ARGUMENTS
    ensures n in Free(program, Reference, hostMembers) && n !in FreeInEdition(program, Reference, hostMembers)
      <==> OnlyInFunctions(program, hostMembers, n)
  {
    if n in Free(program, Reference, hostMembers) {
      var path := FreeOccurs(program, Reference, hostMembers, n);
      assert Occurs(program, Reference, hostMembers, path, n);
    }
    forall path | Occurs(program, Reference, hostMembers, path, n)
      ensures n in Free(program, Reference, hostMembers)
      ensures n in FreeInEdition(program, Reference, hostMembers) || EntersFunction(program, path)
    {
      OccurrenceIsFree(program, Reference, hostMembers, path, n);
      if !EntersFunction(program, path) {
        OccurrenceIsFreeInEdition(program, Reference, hostMembers, path, n);
      }
    }
    if n in FreeInEdition(program, Reference, hostMembers) {
      var path := FreeOccursInEdition(program, Reference, hostMembers, n);
      assert Occurs(program, Reference, hostMembers, path, n) && !EntersFunction(program, path);
    }
  }

  /**
   The walk reports `arguments` wrongly, and so differs from the edition, if and only if the
   name occurs and every uncovered occurrence is in a function that binds it.
   */
  lemma DiffersIff(program: Value, hostMembers: set<string>)
    ensures Free(program, Reference, hostMembers) != FreeInEdition(program, Reference, hostMembers)
      <==> OnlyInFunctions(program, hostMembers, ARGUMENTS)
  {
    var walk, edition := Free(program, Reference, hostMembers), FreeInEdition(program, Reference, hostMembers);
    forall n ensures (n in edition ==> n in walk) && (n != ARGUMENTS ==> (n in walk <==> n in edition)) {
      OnlyArgumentsDiffers(program, hostMembers, n);
    }
    assert walk != edition <==> ARGUMENTS in walk && ARGUMENTS !in edition;
    WronglyFreeIff(program, hostMembers, ARGUMENTS);
  }

  // ----- An input -----

  function Named(name: string): Value {
    Node([Field("type", Text("Identifier")), Field("name", Text(name))])
  }

  /** `return name;`. */
  function Return(name: string): Value {
    Node([Field("type", Text("ReturnStatement")), Field("argument", Named(name))])
  }

  function BlockOf(statement: Value): Value {
    Node([Field("type", Text("BlockStatement")), Field("body", Items([statement]))])
  }

  /** `function f() { ... }`. */
  function FunctionOf(block: Value): Value {
    Node([Field("type", Text("FunctionDeclaration")), Field("id", Named("f")), Field("params", Items([])),
          Field("body", block)])
  }

  function ProgramOf(statement: Value): Value {
    Node([Field("type", Text("Program")), Field("body", Items([statement]))])
  }

  lemma FieldsOf(v: Value, fields: seq<Field>, k: nat)
    requires v == Node(fields) && k < |fields|
    requires forall i | 0 <= i < k :: fields[i].key != fields[k].key
    ensures Part(v, fields[k].key) == fields[k].value
    ensures fields[k] == Field("type", fields[k].value) && fields[k].value.Text? ==> TypeOf(v) == fields[k].value.text
  {
    FieldAt(fields, k);
  }

  lemma {:induction false} FieldAt(fields: seq<Field>, k: nat)
    requires k < |fields| && forall i | 0 <= i < k :: fields[i].key != fields[k].key
    ensures GetField(fields, fields[k].key) == fields[k].value
  {
    if k > 0 {
      FieldAt(fields[1..], k - 1);
    }
  }

  lemma NamedOccurs(hostMembers: set<string>, n: string)
    ensures Occurs(Named(n), Reference, hostMembers, [], n)
  {
    FieldsOf(Named(n), Named(n).fields, 0);
    FieldsOf(Named(n), Named(n).fields, 1);
  }

  lemma PlainStatement(node: Value, hostMembers: set<string>, key: string)
    requires TypeOf(node) == "ReturnStatement"
    ensures ModeOf(node, key, Reference, hostMembers) == Reference
  {}

  lemma PlainScopes(node: Value, key: string)
    requires TypeOf(node) == "ReturnStatement"
    ensures Declared(node, key) == []
  {}

  lemma PlainNames(node: Value)
    requires TypeOf(node) == "ReturnStatement"
    ensures StatementNames(node) == {}
  {}

  lemma PlainKeys(type': string)
    requires type' == "ReturnStatement" || type' == "FunctionDeclaration"
    ensures StatementKeys(type') == [] && type' != "VariableDeclaration"
  {}

  lemma PlainVars(node: Value)
    requires node.Node? && (TypeOf(node) == "ReturnStatement" || TypeOf(node) == "FunctionDeclaration")
    ensures HoistedNames(node) == {}
  {
    var type' := TypeOf(node);
    PlainKeys(type');
    NoVars(node);
  }

  lemma NoVars(node: Value)
    requires node.Node? && StatementKeys(TypeOf(node)) == [] && TypeOf(node) != "VariableDeclaration"
    ensures HoistedNames(node) == {}
  {
    assert forall k :: k !in StatementKeys(TypeOf(node));
  }

  lemma StepIn(v: Value, k: nat, hostMembers: set<string>, path: seq<nat>, n: string)
    requires v.Node? && TypeOf(v) != "Identifier" && k < |v.fields| && v.fields[k].key !in METADATA
    requires !Covered(Declared(v, v.fields[k].key), n)
    requires ModeOf(v, v.fields[k].key, Reference, hostMembers) == Reference
    requires Occurs(v.fields[k].value, Reference, hostMembers, path, n)
    ensures Occurs(v, Reference, hostMembers, [k] + path, n)
  {
    assert ([k] + path)[1..] == path;
  }

  lemma ReturnOccurs(hostMembers: set<string>, n: string)
    ensures Occurs(Return(n), Reference, hostMembers, [1], n)
    ensures StatementNames(Return(n)) == {} && HoistedNames(Return(n)) == {}
  {
    var v := Return(n);
    FieldsOf(v, v.fields, 0);
    PlainStatement(v, hostMembers, "argument");
    PlainScopes(v, "argument");
    PlainNames(v);
    PlainVars(v);
    NamedOccurs(hostMembers, n);
    StepIn(v, 1, hostMembers, [], n);
    assert [1] + [] == [1];
  }

  lemma OneStatement(statement: Value)
    ensures LexicalNames(Items([statement])) == StatementNames(statement)
    ensures HoistedNames(Items([statement])) == HoistedNames(statement)
  {
    UnionOne(StatementNames, statement);
    UnionOne(HoistedNames, statement);
    assert HoistedNames(Items([statement])) == Union(HoistedNames, [statement]);
  }

  lemma InList(statement: Value, hostMembers: set<string>, path: seq<nat>, n: string)
    requires Occurs(statement, Reference, hostMembers, path, n)
    ensures Occurs(Items([statement]), Reference, hostMembers, [0] + path, n)
  {
    assert ([0] + path)[1..] == path;
  }

  lemma BlockStep(node: Value, hostMembers: set<string>)
    requires TypeOf(node) == "BlockStatement"
    ensures ModeOf(node, "body", Reference, hostMembers) == Reference
    ensures Declared(node, "body") == [Names(LexicalNames(Part(node, "body")))]
  {}

  lemma FunctionStep(node: Value, hostMembers: set<string>)
    requires TypeOf(node) == "FunctionDeclaration"
    ensures ModeOf(node, "body", Reference, hostMembers) == Reference
    ensures Declared(node, "body") == [Names(BoundNames(Part(node, "params"))), Names(FunctionBodyNames(node))]
    ensures StatementNames(node) == BoundNames(Part(node, "id"))
  {
    assert ParameterNames(node) == BoundNames(Part(node, "params"));
  }

  lemma ProgramStep(node: Value, hostMembers: set<string>)
    requires TypeOf(node) == "Program"
    ensures ModeOf(node, "body", Reference, hostMembers) == Reference
    ensures Declared(node, "body") == [Names(BodyNames(Part(node, "body")))]
  {}

  /** A node of a type whose last field is this one, called `body`. */
  ghost predicate Ends(node: Value, type': string, body: Value) {
    && node.Node? && node.fields != [] && TypeOf(node) == type' && type' != "Identifier"
    && node.fields[|node.fields| - 1] == Field("body", body) && Part(node, "body") == body
  }

  lemma BodyIsWalked()
    ensures "body" !in METADATA
  {}

  lemma StepInBody(node: Value, type': string, body: Value, hostMembers: set<string>, path: seq<nat>, n: string)
    requires Ends(node, type', body) && Occurs(body, Reference, hostMembers, path, n)
    requires !Covered(Declared(node, "body"), n) && ModeOf(node, "body", Reference, hostMembers) == Reference
    ensures Occurs(node, Reference, hostMembers, [|node.fields| - 1] + path, n)
  {
    BodyIsWalked();
    StepIn(node, |node.fields| - 1, hostMembers, path, n);
  }

  /** A statement that declares nothing, in a block. */
  lemma InBlock(node: Value, statement: Value, hostMembers: set<string>, path: seq<nat>, n: string)
    requires Occurs(statement, Reference, hostMembers, path, n)
    requires StatementNames(statement) == {} && HoistedNames(statement) == {}
    requires Ends(node, "BlockStatement", Items([statement]))
    ensures Occurs(node, Reference, hostMembers, [|node.fields| - 1] + ([0] + path), n)
    ensures BodyNames(Part(node, "body")) == {}
  {
    OneStatement(statement);
    InList(statement, hostMembers, path, n);
    BlockStep(node, hostMembers);
    StepInBody(node, "BlockStatement", Items([statement]), hostMembers, [0] + path, n);
  }

  /** A body that declares nothing, in a function without parameters. */
  lemma InFunction(node: Value, block: Value, hostMembers: set<string>, path: seq<nat>, n: string)
    requires Occurs(block, Reference, hostMembers, path, n)
    requires TypeOf(block) == "BlockStatement" && BodyNames(Part(block, "body")) == {}
    requires Ends(node, "FunctionDeclaration", block) && BoundNames(Part(node, "params")) == {}
    ensures Occurs(node, Reference, hostMembers, [|node.fields| - 1] + path, n)
  {
    FunctionStep(node, hostMembers);
    StepInBody(node, "FunctionDeclaration", block, hostMembers, path, n);
  }

  lemma NamedBinds(n: string)
    ensures BoundNames(Named(n)) == {n}
  {
    FieldsOf(Named(n), Named(n).fields, 0);
    FieldsOf(Named(n), Named(n).fields, 1);
    BoundNamesOfFields(Named(n), []);
  }

  lemma InProgram(node: Value, statement: Value, hostMembers: set<string>, path: seq<nat>, n: string)
    requires Occurs(statement, Reference, hostMembers, path, n)
    requires n !in StatementNames(statement) && n !in HoistedNames(statement)
    requires Ends(node, "Program", Items([statement]))
    ensures Occurs(node, Reference, hostMembers, [|node.fields| - 1] + ([0] + path), n)
  {
    OneStatement(statement);
    InList(statement, hostMembers, path, n);
    ProgramStep(node, hostMembers);
    StepInBody(node, "Program", Items([statement]), hostMembers, [0] + path, n);
  }

  /** `function f() { return arguments; }`. */
  function ReadsArguments(): Value {
    ProgramOf(FunctionOf(BlockOf(Return(ARGUMENTS))))
  }

  lemma BlockIs(statement: Value)
    ensures Ends(BlockOf(statement), "BlockStatement", Items([statement]))
  {
    FieldsOf(BlockOf(statement), BlockOf(statement).fields, 0);
    FieldsOf(BlockOf(statement), BlockOf(statement).fields, 1);
  }

  lemma FunctionIs(block: Value)
    ensures Ends(FunctionOf(block), "FunctionDeclaration", block)
    ensures Part(FunctionOf(block), "id") == Named("f") && Part(FunctionOf(block), "params") == Items([])
  {
    var fields := FunctionOf(block).fields;
    FieldsOf(FunctionOf(block), fields, 0);
    FieldsOf(FunctionOf(block), fields, 1);
    FieldsOf(FunctionOf(block), fields, 2);
    FieldsOf(FunctionOf(block), fields, 3);
  }

  lemma ProgramIs(statement: Value)
    ensures Ends(ProgramOf(statement), "Program", Items([statement]))
  {
    FieldsOf(ProgramOf(statement), ProgramOf(statement).fields, 0);
    FieldsOf(ProgramOf(statement), ProgramOf(statement).fields, 1);
  }

  lemma FunctionDeclares(block: Value, hostMembers: set<string>)
    ensures StatementNames(FunctionOf(block)) == {"f"} && HoistedNames(FunctionOf(block)) == {}
    ensures BindsArguments(FunctionOf(block), "body")
    ensures ModeOf(FunctionOf(block), "id", Reference, hostMembers) == Binding
    ensures BoundNames(Part(FunctionOf(block), "params")) == {}
  {
    FunctionIs(block);
    FunctionStep(FunctionOf(block), hostMembers);
    NamedBinds("f");
    PlainVars(FunctionOf(block));
    BoundNamesOfItems(Items([]));
  }

  /** Whatever occurs in such a function occurs in its body, and whatever occurs in the program in its statement. */
  lemma OccursInBody(block: Value, hostMembers: set<string>, path: seq<nat>, n: string)
    requires Occurs(FunctionOf(block), Reference, hostMembers, path, n)
    ensures EntersFunction(FunctionOf(block), path)
  {
    var node := FunctionOf(block);
    FunctionIs(block);
    FunctionDeclares(block, hostMembers);
    assert node.fields[1] == Field("id", Named("f")) && node.fields[3] == Field("body", block);
    assert !Occurs(Named("f"), Binding, hostMembers, path[1..], n);
  }

  lemma OccursInStatement(statement: Value, hostMembers: set<string>, path: seq<nat>, n: string)
    requires Occurs(ProgramOf(statement), Reference, hostMembers, path, n)
    ensures |path| > 1 && path[0] == 1 && path[1] == 0
    ensures Occurs(statement, Reference, hostMembers, path[1..][1..], n)
    ensures EntersFunction(statement, path[1..][1..]) ==> EntersFunction(ProgramOf(statement), path)
  {
    ProgramIs(statement);
    ProgramStep(ProgramOf(statement), hostMembers);
    assert ProgramOf(statement).fields[1] == Field("body", Items([statement]));
    assert Occurs(Items([statement]), Reference, hostMembers, path[1..], n);
  }

  lemma BlockOccurs(statement: Value, hostMembers: set<string>, path: seq<nat>, n: string) returns (r: seq<nat>)
    requires Occurs(statement, Reference, hostMembers, path, n)
    requires StatementNames(statement) == {} && HoistedNames(statement) == {}
    ensures Occurs(BlockOf(statement), Reference, hostMembers, r, n)
    ensures TypeOf(BlockOf(statement)) == "BlockStatement" && BodyNames(Part(BlockOf(statement), "body")) == {}
  {
    BlockIs(statement);
    InBlock(BlockOf(statement), statement, hostMembers, path, n);
    r := [|BlockOf(statement).fields| - 1] + ([0] + path);
  }

  lemma FunctionOccurs(block: Value, hostMembers: set<string>, path: seq<nat>, n: string) returns (r: seq<nat>)
    requires Occurs(block, Reference, hostMembers, path, n)
    requires TypeOf(block) == "BlockStatement" && BodyNames(Part(block, "body")) == {}
    ensures Occurs(FunctionOf(block), Reference, hostMembers, r, n)
  {
    FunctionIs(block);
    FunctionDeclares(block, hostMembers);
    InFunction(FunctionOf(block), block, hostMembers, path, n);
    r := [|FunctionOf(block).fields| - 1] + path;
  }

  lemma ProgramOccurs(statement: Value, hostMembers: set<string>, path: seq<nat>, n: string)
    requires Occurs(statement, Reference, hostMembers, path, n)
    requires n !in StatementNames(statement) && n !in HoistedNames(statement)
    ensures n in Free(ProgramOf(statement), Reference, hostMembers)
  {
    ProgramIs(statement);
    InProgram(ProgramOf(statement), statement, hostMembers, path, n);
    OccurrenceIsFree(ProgramOf(statement), Reference, hostMembers,
                     [|ProgramOf(statement).fields| - 1] + ([0] + path), n);
  }

  lemma ReturnedIsFree(hostMembers: set<string>, n: string)
    requires n != "f"
    ensures n in Free(ProgramOf(FunctionOf(BlockOf(Return(n)))), Reference, hostMembers)
  {
    ReturnOccurs(hostMembers, n);
    var inBlock := BlockOccurs(Return(n), hostMembers, [1], n);
    var inFunction := FunctionOccurs(BlockOf(Return(n)), hostMembers, inBlock, n);
    FunctionDeclares(BlockOf(Return(n)), hostMembers);
    ProgramOccurs(FunctionOf(BlockOf(Return(n))), hostMembers, inFunction, n);
  }

  /** The walk reports `arguments` for this program, where the function binds it. */
  lemma ArgumentsIsReported(hostMembers: set<string>)
    ensures ARGUMENTS in Free(ReadsArguments(), Reference, hostMembers)
    ensures ARGUMENTS !in FreeInEdition(ReadsArguments(), Reference, hostMembers)
  {
    ReturnedIsFree(hostMembers, ARGUMENTS);
    if ARGUMENTS in FreeInEdition(ReadsArguments(), Reference, hostMembers) {
      var path := FreeOccursInEdition(ReadsArguments(), Reference, hostMembers, ARGUMENTS);
      var block := BlockOf(Return(ARGUMENTS));
      OccursInStatement(FunctionOf(block), hostMembers, path, ARGUMENTS);
      OccursInBody(block, hostMembers, path[1..][1..], ARGUMENTS);
    }
  }
}
