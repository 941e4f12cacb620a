/**
 `unresolvedReferenceNames` (tools/test262-source.ts): a worklist over a syntax tree that carries
 the chain of enclosing scopes, proved equal to the free names of the tree by structural
 recursion. The parser is not part of this model.
 */
module ReferenceWalk {
  import opened SyntaxNames

  datatype Mode = Binding | Reference | Skip

  /** A declarative scope's names, or the object environment of a `with` body. */
  datatype Scope = Names(names: set<string>) | Object

  const METADATA: set<string> := {
    "comments", "end", "errors", "extra", "innerComments", "leadingComments", "loc", "range", "start", "tokens",
    "trailingComments"
  }

  predicate IsFunction(type': string) {
    type' in {"FunctionDeclaration", "FunctionExpression", "ArrowFunctionExpression", "ObjectMethod", "ClassMethod",
              "ClassPrivateMethod"}
  }

  predicate IsClass(type': string) {
    type' == "ClassDeclaration" || type' == "ClassExpression"
  }

  // ----- The scopes a node adds for one of its fields -----

  function BodyNames(statements: Value): set<string> {
    HoistedNames(statements) + LexicalNames(statements)
  }

  function ParameterNames(node: Value): set<string> {
    BoundNames(Part(node, "params")) +
    if TypeOf(node) == "FunctionExpression" then BoundNames(Part(node, "id")) else {}
  }

  function FunctionBodyNames(node: Value): set<string> {
    var block := Part(node, "body");
    if TypeOf(block) == "BlockStatement" then BodyNames(Part(block, "body")) else {}
  }

  function CaseNames(switchCase: Value): set<string> {
    LexicalNames(Part(switchCase, "consequent"))
  }

  function Declared(node: Value, key: string): seq<Scope> {
    var type' := TypeOf(node);
    if type' == "Program" || type' == "StaticBlock" then [Names(BodyNames(Part(node, "body")))]
    else if IsFunction(type') then
      if key == "params" then [Names(ParameterNames(node))]
      else if key == "body" then [Names(ParameterNames(node)), Names(FunctionBodyNames(node))]
      else []
    else if type' == "BlockStatement" then [Names(LexicalNames(Part(node, "body")))]
    else if type' == "SwitchStatement" then
      if key == "cases" then [Names(Union(CaseNames, ItemsOf(Part(node, "cases"))))] else []
    else if type' == "ForStatement" then [Names(LexicalNames(Part(node, "init")))]
    else if type' == "ForInStatement" || type' == "ForOfStatement" then [Names(LexicalNames(Part(node, "left")))]
    else if type' == "CatchClause" then [Names(BoundNames(Part(node, "param")))]
    else if type' == "WithStatement" then if key == "body" then [Object] else []
    else if IsClass(type') then if key == "id" then [] else [Names(BoundNames(Part(node, "id")))]
    else []
  }

  // ----- How a field is walked -----

  function IfComputed(node: Value): Mode {
    if Part(node, "computed") == Flag(true) then Reference else Skip
  }

  /** `$262.member` or `$262["member"]` for a member the host installs. */
  predicate HostMemberRead(node: Value, hostMembers: set<string>) {
    var object', property := Part(node, "object"), Part(node, "property");
    && TypeOf(node) in {"MemberExpression", "OptionalMemberExpression"}
    && TypeOf(object') == "Identifier" && Part(object', "name") == Text("$262")
    && if IfComputed(node).Reference? then
         TypeOf(property) == "StringLiteral" && Part(property, "value").Text? &&
         Part(property, "value").text in hostMembers
       else
         TypeOf(property) == "Identifier" && Part(property, "name").Text? && Part(property, "name").text in hostMembers
  }

  function BindingMode(node: Value, key: string): Mode {
    var type' := TypeOf(node);
    if type' == "ObjectProperty" then if key == "key" then IfComputed(node) else Binding
    else if type' == "AssignmentPattern" then if key == "left" then Binding else Reference
    else if type' in {"ObjectPattern", "ArrayPattern", "RestElement"} then Binding
    else Reference
  }

  function When(c: bool, mode: Mode): Mode {
    if c then mode else Reference
  }

  function ModeOf(node: Value, key: string, mode: Mode, hostMembers: set<string>): Mode {
    var type' := TypeOf(node);
    if mode == Binding then BindingMode(node, key)
    else if type' == "VariableDeclarator" then When(key == "id", Binding)
    else if IsFunction(type') then
      if key == "id" || key == "params" then Binding else When(key == "key", IfComputed(node))
    else if IsClass(type') then When(key == "id", Binding)
    else if type' == "CatchClause" then When(key == "param", Binding)
    else if type' in {"ImportSpecifier", "ImportDefaultSpecifier", "ImportNamespaceSpecifier"} then
      if key == "local" then Binding else Skip
    else if type' == "ExportNamedDeclaration" then When(key == "specifiers" && Part(node, "source") != Atom, Skip)
    else if type' in {"ExportSpecifier", "ExportNamespaceSpecifier", "ExportDefaultSpecifier"} then
      When(key == "exported", Skip)
    else if type' in {"MemberExpression", "OptionalMemberExpression"} then
      if key == "property" then IfComputed(node) else When(key == "object" && HostMemberRead(node, hostMembers), Skip)
    else if type' in {"ObjectProperty", "ClassProperty", "ClassAccessorProperty", "ClassPrivateProperty"} then
      When(key == "key", IfComputed(node))
    else if type' in {"LabeledStatement", "BreakStatement", "ContinueStatement"} then When(key == "label", Skip)
    else if type' in {"MetaProperty", "PrivateName", "ImportAttribute"} then Skip
    else if type' == "UnaryExpression" then
      When(Part(node, "operator") == Text("typeof") && key == "argument"
           && TypeOf(Part(node, "argument")) == "Identifier", Skip)
    else Reference
  }

  // ----- References under a chain of scopes -----

  predicate Covered(scopes: seq<Scope>, name: string) {
    exists i | 0 <= i < |scopes| :: scopes[i].Object? || name in scopes[i].names
  }

  datatype Entry = Entry(mode: Mode, scopes: seq<Scope>, value: Value)

  function Child(e: Entry, f: Field, hostMembers: set<string>): Entry {
    Entry(ModeOf(e.value, f.key, e.mode, hostMembers), e.scopes + Declared(e.value, f.key), f.value)
  }

  function OwnReference(mode: Mode, v: Value): set<string> {
    if mode == Reference && Part(v, "name").Text? then {Part(v, "name").text} else {}
  }

  function Unbound(scopes: seq<Scope>, names: set<string>): set<string> {
    set n | n in names && !Covered(scopes, n)
  }

  /** The unresolved references of one entry. */
  function Refs(e: Entry, hostMembers: set<string>): set<string>
    decreases Size(e.value)
  {
    if e.mode == Skip then {}
    else
      match e.value
      case Items(items) =>
        ItemsAreSmaller(items);
        set i, n | 0 <= i < |items| && n in Refs(e.(value := items[i]), hostMembers) :: n
      case Node(fields) =>
        if TypeOf(e.value) == "Identifier" then Unbound(e.scopes, OwnReference(e.mode, e.value))
        else
          FieldsAreSmaller(fields);
          set i, n | 0 <= i < |fields| && fields[i].key !in METADATA &&
                     n in Refs(Child(e, fields[i], hostMembers), hostMembers) :: n
      case _ => {}
  }

  lemma FieldsAreSmaller(fields: seq<Field>)
    ensures forall i | 0 <= i < |fields| :: Size(fields[i].value) <= FieldSize(fields)
  {
    forall i | 0 <= i < |fields| ensures Size(fields[i].value) <= FieldSize(fields) {
      FieldIsSmaller(fields, i);
    }
  }

  // ----- Free names, without scopes -----

  /** The free names of a tree: what its parts leave free, less what each part's scopes declare. */
  function Free(v: Value, mode: Mode, hostMembers: set<string>): set<string>
    decreases Size(v)
  {
    if mode == Skip then {}
    else
      match v
      case Items(items) =>
        ItemsAreSmaller(items);
        set i, n | 0 <= i < |items| && n in Free(items[i], mode, hostMembers) :: n
      case Node(fields) =>
        if TypeOf(v) == "Identifier" then OwnReference(mode, v)
        else
          FieldsAreSmaller(fields);
          set i, n | 0 <= i < |fields| && fields[i].key !in METADATA &&
                     n in Unbound(Declared(v, fields[i].key),
                                  Free(fields[i].value, ModeOf(v, fields[i].key, mode, hostMembers), hostMembers)) :: n
      case _ => {}
  }

  lemma CoveredConcat(a: seq<Scope>, b: seq<Scope>, n: string)
    ensures Covered(a + b, n) <==> Covered(a, n) || Covered(b, n)
  {
    if Covered(a, n) {
      var i :| 0 <= i < |a| && (a[i].Object? || n in a[i].names);
      assert (a + b)[i] == a[i];
    }
    if Covered(b, n) {
      var i :| 0 <= i < |b| && (b[i].Object? || n in b[i].names);
      assert (a + b)[|a| + i] == b[i];
    }
  }

  /** Carrying the scopes down gives the free names that no scope of the chain covers. */
  lemma {:induction false} ScopesOnlyHide(e: Entry, hostMembers: set<string>, n: string)
    ensures n in Refs(e, hostMembers) <==> n in Free(e.value, e.mode, hostMembers) && !Covered(e.scopes, n)
    decreases Size(e.value)
  {
    if e.mode != Skip {
      if e.value.Items? {
        ItemsAreSmaller(e.value.items);
        forall i | 0 <= i < |e.value.items|
          ensures n in Refs(e.(value := e.value.items[i]), hostMembers) <==>
            n in Free(e.value.items[i], e.mode, hostMembers) && !Covered(e.scopes, n)
        {
          ScopesOnlyHide(e.(value := e.value.items[i]), hostMembers, n);
        }
      } else if e.value.Node? && TypeOf(e.value) != "Identifier" {
        FieldsAreSmaller(e.value.fields);
        forall i | 0 <= i < |e.value.fields|
          ensures n in Refs(Child(e, e.value.fields[i], hostMembers), hostMembers) <==>
            n in FieldFree(e.value, e.mode, e.value.fields[i], hostMembers) && !Covered(e.scopes, n)
        {
          var f := e.value.fields[i];
          ScopesOnlyHide(Child(e, f, hostMembers), hostMembers, n);
          CoveredConcat(e.scopes, Declared(e.value, f.key), n);
        }
      }
    }
  }

  /** What one field leaves free. */
  function FieldFree(v: Value, mode: Mode, f: Field, hostMembers: set<string>): set<string> {
    Unbound(Declared(v, f.key), Free(f.value, ModeOf(v, f.key, mode, hostMembers), hostMembers))
  }

  // ----- The worklist -----

  function RefsOf(hostMembers: set<string>): Entry -> set<string> {
    (e: Entry) => Refs(e, hostMembers)
  }

  function WalkSize(stack: seq<Entry>): nat {
    if stack == [] then 0 else WalkSize(stack[..|stack| - 1]) + Size(stack[|stack| - 1].value)
  }

  lemma {:induction false} WalkSizeConcat(a: seq<Entry>, b: seq<Entry>)
    ensures WalkSize(a + b) == WalkSize(a) + WalkSize(b)
    decreases |b|
  {
    if b == [] {
      assert a + b == a;
    } else {
      assert (a + b)[..|a + b| - 1] == a + b[..|b| - 1];
      WalkSizeConcat(a, b[..|b| - 1]);
    }
  }

  /** The entries of a list's elements, or of a node's fields, up to the `n`th. */
  function ItemEntries(e: Entry, items: seq<Value>): (r: seq<Entry>)
    ensures |r| == |items| && forall i | 0 <= i < |r| :: r[i] == e.(value := items[i])
  {
    seq(|items|, i requires 0 <= i < |items| => e.(value := items[i]))
  }

  lemma {:induction false} ItemEntriesSize(e: Entry, items: seq<Value>)
    ensures WalkSize(ItemEntries(e, items)) == TotalSize(items)
  {
    if items != [] {
      ItemEntriesSize(e, items[..|items| - 1]);
      var all := ItemEntries(e, items);
      assert all[..|all| - 1] == ItemEntries(e, items[..|items| - 1]);
    }
  }

  function FieldEntries(e: Entry, fields: seq<Field>, hostMembers: set<string>): seq<Entry> {
    if fields == [] then []
    else
      (if fields[0].key in METADATA then [] else [Child(e, fields[0], hostMembers)]) +
      FieldEntries(e, fields[1..], hostMembers)
  }

  lemma {:induction false} FieldEntriesSize(e: Entry, fields: seq<Field>, hostMembers: set<string>)
    ensures WalkSize(FieldEntries(e, fields, hostMembers)) <= FieldSize(fields)
  {
    if fields != [] {
      FieldEntriesSize(e, fields[1..], hostMembers);
      var first := if fields[0].key in METADATA then [] else [Child(e, fields[0], hostMembers)];
      WalkSizeConcat(first, FieldEntries(e, fields[1..], hostMembers));
      assert first != [] ==> first[..0] == [];
    }
  }

  /** The references of some field outside the parser's bookkeeping. */
  ghost predicate InSomeField(e: Entry, fields: seq<Field>, hostMembers: set<string>, n: string) {
    exists i | 0 <= i < |fields| ::
      fields[i].key !in METADATA && n in Refs(Child(e, fields[i], hostMembers), hostMembers)
  }

  lemma {:induction false} FieldEntriesRefs(e: Entry, fields: seq<Field>, hostMembers: set<string>, n: string)
    ensures n in Union(RefsOf(hostMembers), FieldEntries(e, fields, hostMembers)) <==>
      InSomeField(e, fields, hostMembers, n)
  {
    if fields != [] {
      var rest := fields[1..];
      FieldEntriesRefs(e, rest, hostMembers, n);
      var first := if fields[0].key in METADATA then [] else [Child(e, fields[0], hostMembers)];
      UnionConcat(RefsOf(hostMembers), first, FieldEntries(e, rest, hostMembers));
      UnionOne(RefsOf(hostMembers), Child(e, fields[0], hostMembers));
      SomeFieldFirst(e, fields, hostMembers, n);
    }
  }

  lemma SomeFieldFirst(e: Entry, fields: seq<Field>, hostMembers: set<string>, n: string)
    requires fields != []
    ensures InSomeField(e, fields, hostMembers, n) <==>
      (fields[0].key !in METADATA && n in Refs(Child(e, fields[0], hostMembers), hostMembers)) ||
      InSomeField(e, fields[1..], hostMembers, n)
  {
    var rest := fields[1..];
    assert forall i | 0 <= i < |rest| :: rest[i] == fields[i + 1];
    if InSomeField(e, fields, hostMembers, n) {
      var i :| 0 <= i < |fields| && fields[i].key !in METADATA &&
        n in Refs(Child(e, fields[i], hostMembers), hostMembers);
      assert i > 0 ==> rest[i - 1] == fields[i];
    }
  }

  /** What an entry refers to itself, and the entries below it. */
  method ExpandEntry(e: Entry, hostMembers: set<string>) returns (own: set<string>, pushed: seq<Entry>)
    ensures Refs(e, hostMembers) == own + Union(RefsOf(hostMembers), pushed)
    ensures pushed == [] || WalkSize(pushed) < Size(e.value)
  {
    own, pushed := {}, [];
    if e.mode == Skip {
    } else if e.value.Items? {
      pushed := ItemEntries(e, e.value.items);
      ItemEntriesSize(e, e.value.items);
      ItemsRefs(e, hostMembers);
    } else if e.value.Node? {
      if TypeOf(e.value) == "Identifier" {
        own := Unbound(e.scopes, OwnReference(e.mode, e.value));
      } else {
        pushed := FieldEntries(e, e.value.fields, hostMembers);
        FieldEntriesSize(e, e.value.fields, hostMembers);
        FieldsRefs(e, hostMembers);
      }
    }
  }

  lemma ItemsRefs(e: Entry, hostMembers: set<string>)
    requires e.mode != Skip && e.value.Items?
    ensures Refs(e, hostMembers) == Union(RefsOf(hostMembers), ItemEntries(e, e.value.items))
  {
    var entries := ItemEntries(e, e.value.items);
    forall n ensures n in Refs(e, hostMembers) <==> n in Union(RefsOf(hostMembers), entries) {
      if n in Refs(e, hostMembers) {
        var i :| 0 <= i < |e.value.items| && n in Refs(e.(value := e.value.items[i]), hostMembers);
        assert n in RefsOf(hostMembers)(entries[i]);
      }
    }
  }

  lemma FieldsRefs(e: Entry, hostMembers: set<string>)
    requires e.mode != Skip && e.value.Node? && TypeOf(e.value) != "Identifier"
    ensures Refs(e, hostMembers) == Union(RefsOf(hostMembers), FieldEntries(e, e.value.fields, hostMembers))
  {
    forall n ensures n in Refs(e, hostMembers) <==> InSomeField(e, e.value.fields, hostMembers, n) {
    }
    forall n ensures n in Refs(e, hostMembers) <==>
      n in Union(RefsOf(hostMembers), FieldEntries(e, e.value.fields, hostMembers))
    {
      FieldEntriesRefs(e, e.value.fields, hostMembers, n);
    }
  }

  /**
   The names that no scope the walk knows declares: exactly the free names of the program, in
   whatever order the worklist visits it. The bindings of `arguments` are not among those scopes.
   */
  method UnresolvedReferenceNames(program: Value, hostMembers: set<string>) returns (referenced: set<string>)
    ensures referenced == Free(program, Reference, hostMembers)
  {
    referenced := {};
    var start := Entry(Reference, [], program);
    var pending := [start];
    UnionOne(RefsOf(hostMembers), start);
    while pending != []
      invariant referenced + Union(RefsOf(hostMembers), pending) == Refs(start, hostMembers)
      decreases WalkSize(pending), |pending|
    {
      var rest, entry := pending[..|pending| - 1], pending[|pending| - 1];
      var own, pushed := ExpandEntry(entry, hostMembers);
      PopAndPush(RefsOf(hostMembers), pending, own, pushed);
      WalkSizeConcat(rest, pushed);
      referenced := referenced + own;
      pending := rest + pushed;
    }
    forall n ensures n in Refs(start, hostMembers) <==> n in Free(program, Reference, hostMembers) {
      ScopesOnlyHide(start, hostMembers, n);
    }
  }

  // ----- Occurrences -----

  /** A path of positions leads to an identifier in reference position that nothing on the way covers. */
  predicate Occurs(v: Value, mode: Mode, hostMembers: set<string>, path: seq<nat>, n: string)
    decreases |path|
  {
    if mode == Skip then false
    else
      match v
      case Items(items) => path != [] && path[0] < |items| && Occurs(items[path[0]], mode, hostMembers, path[1..], n)
      case Node(fields) =>
        if TypeOf(v) == "Identifier" then path == [] && n in OwnReference(mode, v)
        else
          && path != [] && path[0] < |fields| && fields[path[0]].key !in METADATA
          && !Covered(Declared(v, fields[path[0]].key), n)
          && Occurs(fields[path[0]].value, ModeOf(v, fields[path[0]].key, mode, hostMembers), hostMembers, path[1..], n)
      case _ => false
  }

  lemma {:induction false} OccurrenceIsFree(v: Value, mode: Mode, hostMembers: set<string>, path: seq<nat>, n: string)
    requires Occurs(v, mode, hostMembers, path, n)
    ensures n in Free(v, mode, hostMembers)
    decreases |path|
  {
    if v.Items? {
      OccurrenceIsFree(v.items[path[0]], mode, hostMembers, path[1..], n);
    } else if TypeOf(v) != "Identifier" {
      var f := v.fields[path[0]];
      OccurrenceIsFree(f.value, ModeOf(v, f.key, mode, hostMembers), hostMembers, path[1..], n);
      assert n in FieldFree(v, mode, f, hostMembers);
    }
  }

  lemma FieldFreeIsFree(v: Value, mode: Mode, f: Field, hostMembers: set<string>, n: string)
    requires n in FieldFree(v, mode, f, hostMembers)
    ensures n in Free(f.value, ModeOf(v, f.key, mode, hostMembers), hostMembers)
    ensures !Covered(Declared(v, f.key), n)
  {}

  lemma FreeInField(v: Value, mode: Mode, hostMembers: set<string>, n: string) returns (i: nat)
    requires v.Node? && TypeOf(v) != "Identifier" && n in Free(v, mode, hostMembers)
    ensures i < |v.fields| && v.fields[i].key !in METADATA && n in FieldFree(v, mode, v.fields[i], hostMembers)
  {
    i :| i < |v.fields| && v.fields[i].key !in METADATA && n in FieldFree(v, mode, v.fields[i], hostMembers);
  }

  lemma {:induction false} FreeOccurs(v: Value, mode: Mode, hostMembers: set<string>, n: string)
    returns (path: seq<nat>)
    requires n in Free(v, mode, hostMembers)
    ensures Occurs(v, mode, hostMembers, path, n)
    decreases Size(v)
  {
    if v.Items? {
      ItemsAreSmaller(v.items);
      var i: nat :| i < |v.items| && n in Free(v.items[i], mode, hostMembers);
      var below := FreeOccurs(v.items[i], mode, hostMembers, n);
      path := [i] + below;
    } else if TypeOf(v) == "Identifier" {
      path := [];
    } else {
      FieldsAreSmaller(v.fields);
      var i := FreeInField(v, mode, hostMembers, n);
      var f := v.fields[i];
      FieldFreeIsFree(v, mode, f, hostMembers, n);
      var below := FreeOccurs(f.value, ModeOf(v, f.key, mode, hostMembers), hostMembers, n);
      path := [i] + below;
    }
  }

  // ----- Places whose names need no binding -----

  predicate InWithBody(node: Value, key: string) {
    TypeOf(node) == "WithStatement" && key == "body"
  }

  predicate TypeofOperand(node: Value, key: string) {
    && TypeOf(node) == "UnaryExpression" && Part(node, "operator") == Text("typeof")
    && key == "argument" && TypeOf(Part(node, "argument")) == "Identifier"
  }

  predicate HostObject(node: Value, key: string, hostMembers: set<string>) {
    key == "object" && HostMemberRead(node, hostMembers)
  }

  /** A step into a `with` body, or from an expression to a `typeof` operand or the object of a host member. */
  predicate Excused(node: Value, key: string, mode: Mode, hostMembers: set<string>) {
    InWithBody(node, key) || (mode == Reference && (TypeofOperand(node, key) || HostObject(node, key, hostMembers)))
  }

  /** The path leads to an identifier of this name. */
  predicate LeadsTo(v: Value, path: seq<nat>, n: string)
    decreases |path|
  {
    match v
    case Items(items) => path != [] && path[0] < |items| && LeadsTo(items[path[0]], path[1..], n)
    case Node(fields) =>
      if TypeOf(v) == "Identifier" then path == [] && Part(v, "name") == Text(n)
      else
        path != [] && path[0] < |fields| && fields[path[0]].key !in METADATA &&
        LeadsTo(fields[path[0]].value, path[1..], n)
    case _ => false
  }

  /** Some step of the path is excused. */
  predicate TakesExcused(v: Value, mode: Mode, hostMembers: set<string>, path: seq<nat>)
    decreases |path|
  {
    && path != []
    && match v
       case Items(items) => path[0] < |items| && TakesExcused(items[path[0]], mode, hostMembers, path[1..])
       case Node(fields) =>
         && path[0] < |fields|
         && var f := fields[path[0]];
            Excused(v, f.key, mode, hostMembers)
            || TakesExcused(f.value, ModeOf(v, f.key, mode, hostMembers), hostMembers, path[1..])
       case _ => false
  }

  lemma WithBodyCovers(node: Value, key: string, n: string)
    requires InWithBody(node, key)
    ensures Covered(Declared(node, key), n)
  {
    assert Declared(node, key)[0].Object?;
  }

  lemma TypeofIsSkipped(node: Value, key: string, hostMembers: set<string>)
    requires TypeofOperand(node, key)
    ensures ModeOf(node, key, Reference, hostMembers) == Skip
  {}

  lemma HostObjectIsSkipped(node: Value, key: string, hostMembers: set<string>)
    requires HostObject(node, key, hostMembers)
    ensures ModeOf(node, key, Reference, hostMembers) == Skip
  {
    MemberIsNoDeclaration(TypeOf(node));
  }

  lemma MemberIsNoDeclaration(type': string)
    requires type' in {"MemberExpression", "OptionalMemberExpression"}
    ensures !IsFunction(type') && !IsClass(type')
  {}

  /** No occurrence is behind an excused step. */
  lemma {:induction false} OccurrencesAreNotExcused(v: Value, mode: Mode, hostMembers: set<string>, path: seq<nat>,
                                                    n: string)
    requires Occurs(v, mode, hostMembers, path, n)
    ensures LeadsTo(v, path, n) && !TakesExcused(v, mode, hostMembers, path)
    decreases |path|
  {
    if v.Items? {
      OccurrencesAreNotExcused(v.items[path[0]], mode, hostMembers, path[1..], n);
    } else if TypeOf(v) != "Identifier" {
      var f := v.fields[path[0]];
      OccurrencesAreNotExcused(f.value, ModeOf(v, f.key, mode, hostMembers), hostMembers, path[1..], n);
      OccurrenceStep(v, f.key, mode, hostMembers, n);
    }
  }

  lemma OccurrenceStep(node: Value, key: string, mode: Mode, hostMembers: set<string>, n: string)
    requires !Covered(Declared(node, key), n) && ModeOf(node, key, mode, hostMembers) != Skip
    ensures !Excused(node, key, mode, hostMembers)
  {
    if InWithBody(node, key) {
      WithBodyCovers(node, key, n);
    } else if mode == Reference && TypeofOperand(node, key) {
      TypeofIsSkipped(node, key, hostMembers);
    } else if mode == Reference && HostObject(node, key, hostMembers) {
      HostObjectIsSkipped(node, key, hostMembers);
    }
  }

  /**
   A name that the program only mentions in `with` bodies, under `typeof`, or as the object of
   members that the host installs is not unresolved.
   */
  lemma OnlyExcusedIsResolved(program: Value, hostMembers: set<string>, n: string)
    requires forall path | LeadsTo(program, path, n) :: TakesExcused(program, Reference, hostMembers, path)
    ensures n !in Free(program, Reference, hostMembers)
  {
    if n in Free(program, Reference, hostMembers) {
      var path := FreeOccurs(program, Reference, hostMembers, n);
      OccurrencesAreNotExcused(program, Reference, hostMembers, path, n);
    }
  }
}
