/** The generator of custom schema directive classes
    (`DirectiveCommand`, the `lighthouse:directive` console command). From
    the command's flags and the user's answers it collects the interfaces the
    class implements, the `use` imports they need, the method stubs that go
    with them and the schema locations of the directive. It then fills the
    `{{ imports }}`, `{{ name }}`, `{{ locations }}`, `{{ methods }}` and
    `{{ implements }}` placeholders of the class stub, in that order.

    The console prompts and the stub files are inputs: `Answers` holds what
    the user picked, `StubFiles` what the per-interface stub files contain,
    and the class stub arrives already prepared by the base generator. */
module DirectiveCommand {
  import opened Wrappers
  import opened PhpStrings
  import opened PhpArrays

  // ---------------------------------------------------------------------
  // Constants of the command

  /** The namespace of the directive interfaces, with its trailing backslash. */
  const ContractsNamespace: string := "Nuwave\\Lighthouse\\Support\\Contracts\\"

  /** The directive interfaces the command knows about. */
  datatype Contract =
    | ArgTransformerDirective | ArgBuilderDirective | ArgResolver | ArgManipulator
    | ArgDirective | ArgDirectiveForArray
    | FieldResolver | FieldMiddleware | FieldManipulator
    | TypeManipulator | TypeMiddleware | TypeResolver | TypeExtensionManipulator

  /** The bare class name of a directive interface. */
  function ContractName(c: Contract): (r: string)
    ensures |r| > 0 && '\\' !in r
  {
    match c
    case ArgTransformerDirective => "ArgTransformerDirective"
    case ArgBuilderDirective => "ArgBuilderDirective"
    case ArgResolver => "ArgResolver"
    case ArgManipulator => "ArgManipulator"
    case ArgDirective => "ArgDirective"
    case ArgDirectiveForArray => "ArgDirectiveForArray"
    case FieldResolver => "FieldResolver"
    case FieldMiddleware => "FieldMiddleware"
    case FieldManipulator => "FieldManipulator"
    case TypeManipulator => "TypeManipulator"
    case TypeMiddleware => "TypeMiddleware"
    case TypeResolver => "TypeResolver"
    case TypeExtensionManipulator => "TypeExtensionManipulator"
  }

  /** The fully-qualified name of a directive interface, as the command's
      interface constants spell it. */
  function Fqn(c: Contract): string {
    ContractsNamespace + ContractName(c)
  }

  /** The fully-qualified names of a list of interfaces, in order. */
  function Fqns(cs: seq<Contract>): (r: seq<string>)
    ensures |r| == |cs| && forall i {:trigger r[i]} :: 0 <= i < |cs| ==> r[i] == Fqn(cs[i])
  {
    seq(|cs|, i requires 0 <= i < |cs| => Fqn(cs[i]))
  }

  /** Listing the names of one interface and then of others. */
  lemma FqnsCons(c: Contract, cs: seq<Contract>)
    ensures Fqns([c] + cs) == [Fqn(c)] + Fqns(cs)
  {
  }

  /** Listing the names of two lists of interfaces one after the other. */
  lemma FqnsAppend(xs: seq<Contract>, ys: seq<Contract>)
    ensures Fqns(xs + ys) == Fqns(xs) + Fqns(ys)
  {
  }

  /** The interfaces offered for an argument directive. */
  const ArgumentInterfaces: seq<Contract> := [ArgTransformerDirective, ArgBuilderDirective, ArgResolver, ArgManipulator]

  /** The interfaces offered for a field directive. */
  const FieldInterfaces: seq<Contract> := [FieldResolver, FieldMiddleware, FieldManipulator]

  /** The interfaces offered for a type directive. */
  const TypeInterfaces: seq<Contract> := [TypeManipulator, TypeMiddleware, TypeResolver, TypeExtensionManipulator]

  /** The schema locations offered for a type directive. */
  const TypeLocations: seq<string> := ["OBJECT", "INTERFACE", "ENUM", "INPUT_OBJECT", "SCALAR", "UNION"]

  /** The one location every field directive gets. */
  const FieldDefinition: string := "FIELD_DEFINITION"

  /** The schema locations offered for an argument directive. */
  const ArgumentLocations: seq<string> := ["ARGUMENT_DEFINITION", "INPUT_FIELD_DEFINITION"]

  /** The message of the exception thrown when no flag is given. */
  const MissingTargetMessage: string := "Must specify at least one of: --type, --field, --argument"

  // ---------------------------------------------------------------------
  // Inputs and collected parts

  /** The `--type`, `--field` and `--argument` flags. */
  datatype Options = Options(forType: bool, forField: bool, forArgument: bool)

  /** The answers given at the prompts: the interfaces and locations picked
      for each kind of directive, and whether an argument directive applies
      to a list of items. */
  datatype Answers = Answers(
    typeInterfaces: seq<Contract>,
    typeLocations: seq<string>,
    fieldInterfaces: seq<Contract>,
    appliesToList: bool,
    argumentInterfaces: seq<Contract>,
    argumentLocations: seq<string>)

  /** The contents of the optional per-interface stub files, keyed by the
      interface's short name: extra imports and method stubs. A missing key
      is a missing file. */
  datatype StubFiles = StubFiles(imports: map<string, string>, methods: map<string, string>)

  /** The four collections `buildClass` fills before substituting. */
  datatype Generated = Generated(
    requiredImports: seq<string>,
    implementedInterfaces: seq<string>,
    possibleLocations: seq<string>,
    methodStubs: seq<string>)

  /** The prompts only accept the options they offer. */
  predicate ValidAnswers(ans: Answers) {
    && (forall i :: 0 <= i < |ans.typeInterfaces| ==> ans.typeInterfaces[i] in TypeInterfaces)
    && (forall i :: 0 <= i < |ans.typeLocations| ==> ans.typeLocations[i] in TypeLocations)
    && (forall i :: 0 <= i < |ans.fieldInterfaces| ==> ans.fieldInterfaces[i] in FieldInterfaces)
    && (forall i :: 0 <= i < |ans.argumentInterfaces| ==> ans.argumentInterfaces[i] in ArgumentInterfaces)
    && (forall i :: 0 <= i < |ans.argumentLocations| ==> ans.argumentLocations[i] in ArgumentLocations)
  }

  // ---------------------------------------------------------------------
  // Names

  /** `getNameInput()`: the name the user typed with `Directive` appended. */
  function GetNameInput(baseName: string): (r: string)
    ensures |r| == |baseName| + |"Directive"|
    ensures r[..|baseName|] == baseName && r[|baseName|..] == "Directive"
  {
    baseName + "Directive"
  }

  /** `shortName($interface)`: the text after the last backslash. */
  function ShortName(fqn: string): (r: string)
    ensures |r| <= |fqn| && r == fqn[|fqn| - |r|..]
    ensures '\\' !in r
    ensures '\\' in fqn ==> |r| < |fqn| && fqn[|fqn| - |r| - 1] == '\\'
    ensures '\\' !in fqn ==> r == fqn
  {
    AfterLast(fqn, '\\')
  }

  /** The short name of a directive interface is its bare class name. */
  lemma ShortNameOfContract(c: Contract)
    ensures ShortName(Fqn(c)) == ContractName(c)
  {
    var fqn := Fqn(c);
    var name := ContractName(c);
    assert fqn[|fqn| - |name|..] == name;
    assert fqn[|fqn| - |name| - 1] == '\\';
    assert IsAfterLast(fqn, '\\', name);
    AfterLastCharacterization(fqn, '\\', name);
  }

  /** The short names of a list of interfaces, in order. */
  function ShortNames(fqns: seq<string>): (r: seq<string>)
    ensures |r| == |fqns| && forall i {:trigger r[i]} :: 0 <= i < |fqns| ==> r[i] == ShortName(fqns[i])
  {
    seq(|fqns|, i requires 0 <= i < |fqns| => ShortName(fqns[i]))
  }

  /** The bare class names of a list of interfaces, in order. */
  function ContractNames(cs: seq<Contract>): (r: seq<string>)
    ensures |r| == |cs| && forall i {:trigger r[i]} :: 0 <= i < |cs| ==> r[i] == ContractName(cs[i])
  {
    seq(|cs|, i requires 0 <= i < |cs| => ContractName(cs[i]))
  }

  /** Listing the names of two lists of interfaces one after the other. */
  lemma ContractNamesAppend(xs: seq<Contract>, ys: seq<Contract>)
    ensures ContractNames(xs + ys) == ContractNames(xs) + ContractNames(ys)
  {
  }

  /** Listing the name of one interface and then of others. */
  lemma ContractNamesCons(c: Contract, cs: seq<Contract>)
    ensures ContractNames([c] + cs) == [ContractName(c)] + ContractNames(cs)
  {
    ContractNamesAppend([c], cs);
    assert ContractNames([c]) == [ContractName(c)];
  }

  /** The short names of the fully-qualified interface names are the bare
      class names. */
  lemma ShortNamesOfContracts(cs: seq<Contract>)
    ensures ShortNames(Fqns(cs)) == ContractNames(cs)
  {
    forall k | 0 <= k < |cs|
      ensures ShortNames(Fqns(cs))[k] == ContractNames(cs)[k]
    {
      ShortNameOfContract(cs[k]);
    }
  }

  /** The import line of an interface. */
  function UseStatement(fqn: string): string {
    "use " + fqn + ";"
  }

  /** No element spans more than one line. */
  predicate SingleLines(xs: seq<string>) {
    forall i :: 0 <= i < |xs| ==> '\n' !in xs[i]
  }

  // ---------------------------------------------------------------------
  // Collecting

  /** The extra import lines of an interface's imports stub, if the file
      exists and is truthy: its lines, none of which spans a line break, and
      which joined by line breaks give back the file's text. */
  function StubImports(shortName: string, files: StubFiles): (r: seq<string>)
    ensures SingleLines(r)
    ensures shortName in files.imports && Truthy(files.imports[shortName]) ==>
      |r| > 0 && Join("\n", r) == files.imports[shortName]
    ensures !(shortName in files.imports && Truthy(files.imports[shortName])) ==> r == []
  {
    if shortName in files.imports && Truthy(files.imports[shortName])
    then
      JoinSplit(files.imports[shortName], '\n');
      Split(files.imports[shortName], '\n')
    else []
  }

  /** The method stub of an interface, if its methods stub file exists and
      is truthy: at most one stub. */
  function StubMethods(shortName: string, files: StubFiles): (r: seq<string>)
    ensures |r| <= 1
    ensures |r| == 1 <==> shortName in files.methods && Truthy(files.methods[shortName])
    ensures |r| == 1 ==> r[0] == files.methods[shortName]
  {
    if shortName in files.methods && Truthy(files.methods[shortName])
    then [files.methods[shortName]]
    else []
  }

  /** The import lines that implementing the interfaces `fqns` adds, in
      order: for each, its `use` line followed by its stub-file imports. */
  function ImportsFor(fqns: seq<string>, files: StubFiles): seq<string>
    decreases |fqns|
  {
    if |fqns| == 0 then []
    else [UseStatement(fqns[0])] + StubImports(ShortName(fqns[0]), files) + ImportsFor(fqns[1..], files)
  }

  /** The contents of an interface's methods stub file, or "" when it has none. */
  function MethodFile(fqn: string, files: StubFiles): string {
    if ShortName(fqn) in files.methods then files.methods[ShortName(fqn)] else ""
  }

  /** The methods stub file contents of each interface, in order. */
  function MethodFiles(fqns: seq<string>, files: StubFiles): (r: seq<string>)
    ensures |r| == |fqns| && forall i {:trigger r[i]} :: 0 <= i < |fqns| ==> r[i] == MethodFile(fqns[i], files)
  {
    seq(|fqns|, i requires 0 <= i < |fqns| => MethodFile(fqns[i], files))
  }

  /** The method stubs that implementing the interfaces `fqns` adds: the
      truthy methods stub file contents, in order. */
  function MethodsFor(fqns: seq<string>, files: StubFiles): seq<string> {
    FilterTruthy(MethodFiles(fqns, files))
  }

  /** Implementing no interface adds nothing. */
  lemma AddedForNone(files: StubFiles)
    ensures ImportsFor([], files) == [] && MethodsFor([], files) == []
  {
    assert FilterKeyed(MethodFiles([], files), Truthy) == [];
  }

  /** What implementing one interface adds. */
  lemma AddedForOne(fqn: string, files: StubFiles)
    ensures ImportsFor([fqn], files) == [UseStatement(fqn)] + StubImports(ShortName(fqn), files)
    ensures MethodsFor([fqn], files) == StubMethods(ShortName(fqn), files)
  {
    assert [fqn][1..] == [];
    assert MethodFiles([fqn], files) == [MethodFile(fqn, files)];
    FilterTruthyOne(MethodFile(fqn, files));
  }

  /** Implementing two lists of interfaces one after the other adds the
      import lines of each. */
  lemma {:induction false} ImportsForAppend(xs: seq<string>, ys: seq<string>, files: StubFiles)
    ensures ImportsFor(xs + ys, files) == ImportsFor(xs, files) + ImportsFor(ys, files)
    decreases |xs|
  {
    if |xs| == 0 {
      assert xs + ys == ys;
    } else {
      assert (xs + ys)[1..] == xs[1..] + ys;
      ImportsForAppend(xs[1..], ys, files);
      var head := [UseStatement(xs[0])] + StubImports(ShortName(xs[0]), files);
      AppendAssoc(head, ImportsFor(xs[1..], files), ImportsFor(ys, files));
    }
  }

  /** Implementing two lists of interfaces one after the other adds the
      method stubs of each. */
  lemma MethodsForAppend(xs: seq<string>, ys: seq<string>, files: StubFiles)
    ensures MethodsFor(xs + ys, files) == MethodsFor(xs, files) + MethodsFor(ys, files)
  {
    assert MethodFiles(xs + ys, files) == MethodFiles(xs, files) + MethodFiles(ys, files);
    FilterTruthyAppend(MethodFiles(xs, files), MethodFiles(ys, files));
  }

  /** What implementing a list of interfaces adds: what the first one adds,
      then what the rest add. */
  lemma AddedForFirst(fqns: seq<string>, files: StubFiles)
    requires |fqns| > 0
    ensures ImportsFor(fqns, files)
         == [UseStatement(fqns[0])] + StubImports(ShortName(fqns[0]), files) + ImportsFor(fqns[1..], files)
    ensures MethodsFor(fqns, files) == StubMethods(ShortName(fqns[0]), files) + MethodsFor(fqns[1..], files)
  {
    assert fqns == [fqns[0]] + fqns[1..];
    MethodsForAppend([fqns[0]], fqns[1..], files);
    AddedForOne(fqns[0], files);
  }

  /** `implementInterface($interface)`: appends the short name to the
      implemented interfaces and `use <fqn>;` plus the stub's import lines to
      the imports, and the method stub, if any, to the methods. */
  function ImplementInterface(g: Generated, fqn: string, files: StubFiles): (r: Generated)
    ensures r.implementedInterfaces == g.implementedInterfaces + [ShortName(fqn)]
    ensures r.possibleLocations == g.possibleLocations
    ensures r.requiredImports == g.requiredImports + [UseStatement(fqn)] + StubImports(ShortName(fqn), files)
    ensures r.methodStubs == g.methodStubs + StubMethods(ShortName(fqn), files)
  {
    var short := ShortName(fqn);
    Generated(g.requiredImports + [UseStatement(fqn)] + StubImports(short, files),
              g.implementedInterfaces + [short], g.possibleLocations,
              g.methodStubs + StubMethods(short, files))
  }

  /** `addLocation($location)`. */
  function AddLocation(g: Generated, location: string): (r: Generated)
    ensures r.possibleLocations == g.possibleLocations + [location]
    ensures r.implementedInterfaces == g.implementedInterfaces && r.requiredImports == g.requiredImports
    ensures r.methodStubs == g.methodStubs
  {
    g.(possibleLocations := g.possibleLocations + [location])
  }

  /** The loop of `askForInterfaces`: implements each chosen interface in turn. */
  function AskForInterfaces(g: Generated, chosen: seq<string>, files: StubFiles): (r: Generated)
    ensures r.implementedInterfaces == g.implementedInterfaces + ShortNames(chosen)
    ensures r.possibleLocations == g.possibleLocations
    ensures r.requiredImports == g.requiredImports + ImportsFor(chosen, files)
    ensures r.methodStubs == g.methodStubs + MethodsFor(chosen, files)
    ensures g.requiredImports <= r.requiredImports
    ensures g.methodStubs <= r.methodStubs
    decreases |chosen|
  {
    if |chosen| == 0 then
      AddedForNone(files);
      g
    else
      NamesAfterFirst(g.implementedInterfaces, chosen);
      ImportsAfterFirst(g.requiredImports, chosen, files);
      MethodsAfterFirst(g.methodStubs, chosen, files);
      AskForInterfaces(ImplementInterface(g, chosen[0], files), chosen[1..], files)
  }

  /** The short names of the first interface and then of the rest are
      those of the whole list. */
  lemma NamesAfterFirst(before: seq<string>, chosen: seq<string>)
    requires |chosen| > 0
    ensures before + [ShortName(chosen[0])] + ShortNames(chosen[1..]) == before + ShortNames(chosen)
  {
    assert ShortNames(chosen) == [ShortName(chosen[0])] + ShortNames(chosen[1..]);
    AppendAssoc(before, [ShortName(chosen[0])], ShortNames(chosen[1..]));
  }

  /** The imports the first interface adds, then those the rest add, are
      those the whole list adds. */
  lemma ImportsAfterFirst(before: seq<string>, chosen: seq<string>, files: StubFiles)
    requires |chosen| > 0
    ensures before + [UseStatement(chosen[0])] + StubImports(ShortName(chosen[0]), files) + ImportsFor(chosen[1..], files)
         == before + ImportsFor(chosen, files)
  {
    AddedForFirst(chosen, files);
    var u, st, t := [UseStatement(chosen[0])], StubImports(ShortName(chosen[0]), files), ImportsFor(chosen[1..], files);
    AppendAssoc(before + u, st, t);
    AppendAssoc(before, u, st + t);
    AppendAssoc(u, st, t);
  }

  /** The method stubs the first interface adds, then those the rest add,
      are those the whole list adds. */
  lemma MethodsAfterFirst(before: seq<string>, chosen: seq<string>, files: StubFiles)
    requires |chosen| > 0
    ensures before + StubMethods(ShortName(chosen[0]), files) + MethodsFor(chosen[1..], files)
         == before + MethodsFor(chosen, files)
  {
    AddedForFirst(chosen, files);
    AppendAssoc(before, StubMethods(ShortName(chosen[0]), files), MethodsFor(chosen[1..], files));
  }

  /** The loop of `askForLocations`: adds each chosen location in turn. */
  function AskForLocations(g: Generated, chosen: seq<string>): (r: Generated)
    ensures r.possibleLocations == g.possibleLocations + chosen
    ensures r.implementedInterfaces == g.implementedInterfaces && r.requiredImports == g.requiredImports
    ensures r.methodStubs == g.methodStubs
    decreases |chosen|
  {
    if |chosen| == 0 then g
    else
      var last := |chosen| - 1;
      assert chosen == chosen[..last] + [chosen[last]];
      AddLocation(AskForLocations(g, chosen[..last]), chosen[last])
  }

  /** The interface every argument directive implements, picked by the answer
      to "Will your argument directive apply to a list of items?". */
  function ArgumentBase(ans: Answers): Contract {
    if ans.appliesToList then ArgDirectiveForArray else ArgDirective
  }

  /** The interfaces the `--type` step implements. */
  function TypeChosen(opts: Options, ans: Answers): seq<Contract> {
    if opts.forType then ans.typeInterfaces else []
  }

  /** The interfaces the `--field` step implements. */
  function FieldChosen(opts: Options, ans: Answers): seq<Contract> {
    if opts.forField then ans.fieldInterfaces else []
  }

  /** The interfaces the `--argument` step implements: the base interface first. */
  function ArgumentChosen(opts: Options, ans: Answers): seq<Contract> {
    if opts.forArgument then [ArgumentBase(ans)] + ans.argumentInterfaces else []
  }

  /** The interfaces implemented, in the order `buildClass` implements them. */
  function ChosenInterfaces(opts: Options, ans: Answers): seq<Contract> {
    TypeChosen(opts, ans) + FieldChosen(opts, ans) + ArgumentChosen(opts, ans)
  }

  /** The locations added, in the order `buildClass` adds them. */
  function ChosenLocations(opts: Options, ans: Answers): seq<string> {
    (if opts.forType then ans.typeLocations else [])
    + (if opts.forField then [FieldDefinition] else [])
    + (if opts.forArgument then ans.argumentLocations else [])
  }

  /** The `--type` part of `buildClass`. */
  function CollectForType(g: Generated, ans: Answers, files: StubFiles): (r: Generated)
    ensures r.implementedInterfaces == g.implementedInterfaces + ContractNames(ans.typeInterfaces)
    ensures r.possibleLocations == g.possibleLocations + ans.typeLocations
    ensures r.requiredImports == g.requiredImports + ImportsFor(Fqns(ans.typeInterfaces), files)
    ensures r.methodStubs == g.methodStubs + MethodsFor(Fqns(ans.typeInterfaces), files)
    ensures g.requiredImports <= r.requiredImports
  {
    ShortNamesOfContracts(ans.typeInterfaces);
    AskForLocations(AskForInterfaces(g, Fqns(ans.typeInterfaces), files), ans.typeLocations)
  }

  /** The `--field` part of `buildClass`. */
  function CollectForField(g: Generated, ans: Answers, files: StubFiles): (r: Generated)
    ensures r.implementedInterfaces == g.implementedInterfaces + ContractNames(ans.fieldInterfaces)
    ensures r.possibleLocations == g.possibleLocations + [FieldDefinition]
    ensures r.requiredImports == g.requiredImports + ImportsFor(Fqns(ans.fieldInterfaces), files)
    ensures r.methodStubs == g.methodStubs + MethodsFor(Fqns(ans.fieldInterfaces), files)
    ensures g.requiredImports <= r.requiredImports
  {
    ShortNamesOfContracts(ans.fieldInterfaces);
    AddLocation(AskForInterfaces(g, Fqns(ans.fieldInterfaces), files), FieldDefinition)
  }

  /** The `--argument` part of `buildClass`. */
  function CollectForArgument(g: Generated, ans: Answers, files: StubFiles): (r: Generated)
    ensures r.implementedInterfaces == g.implementedInterfaces + ContractNames([ArgumentBase(ans)] + ans.argumentInterfaces)
    ensures r.possibleLocations == g.possibleLocations + ans.argumentLocations
    ensures r.requiredImports == g.requiredImports + ImportsFor(Fqns([ArgumentBase(ans)] + ans.argumentInterfaces), files)
    ensures r.methodStubs == g.methodStubs + MethodsFor(Fqns([ArgumentBase(ans)] + ans.argumentInterfaces), files)
    ensures g.requiredImports <= r.requiredImports
  {
    BaseThenArgumentInterfaces(g, ans, files);
    ShortNamesOfContracts([ArgumentBase(ans)] + ans.argumentInterfaces);
    AskForLocations(AskForInterfaces(ImplementInterface(g, Fqn(ArgumentBase(ans)), files),
                                     Fqns(ans.argumentInterfaces), files),
                    ans.argumentLocations)
  }

  /** Implementing the base interface and then the chosen argument interfaces
      is implementing the whole list. */
  lemma BaseThenArgumentInterfaces(g: Generated, ans: Answers, files: StubFiles)
    ensures AskForInterfaces(ImplementInterface(g, Fqn(ArgumentBase(ans)), files), Fqns(ans.argumentInterfaces), files)
         == AskForInterfaces(g, Fqns([ArgumentBase(ans)] + ans.argumentInterfaces), files)
  {
    var all := Fqns([ArgumentBase(ans)] + ans.argumentInterfaces);
    FqnsCons(ArgumentBase(ans), ans.argumentInterfaces);
    assert all[0] == Fqn(ArgumentBase(ans)) && all[1..] == Fqns(ans.argumentInterfaces);
  }

  /** Appending is associative. */
  lemma AppendAssoc<T>(a: seq<T>, b: seq<T>, c: seq<T>)
    ensures a + b + c == a + (b + c)
  {
  }

  /** The state `buildClass` starts from. */
  const Empty: Generated := Generated([], [], [], [])

  /** The `--type` step of `buildClass`, run or skipped. */
  function TypeStep(opts: Options, ans: Answers, files: StubFiles, g: Generated): (r: Generated)
    ensures r.implementedInterfaces == g.implementedInterfaces + ContractNames(TypeChosen(opts, ans))
    ensures r.possibleLocations == g.possibleLocations + (if opts.forType then ans.typeLocations else [])
    ensures r.requiredImports == g.requiredImports + ImportsFor(Fqns(TypeChosen(opts, ans)), files)
    ensures r.methodStubs == g.methodStubs + MethodsFor(Fqns(TypeChosen(opts, ans)), files)
    ensures g.requiredImports <= r.requiredImports
  {
    if opts.forType then CollectForType(g, ans, files)
    else
      assert ContractNames([]) == [] && Fqns([]) == [];
      AddedForNone(files);
      g
  }

  /** The `--field` step of `buildClass`, run or skipped. */
  function FieldStep(opts: Options, ans: Answers, files: StubFiles, g: Generated): (r: Generated)
    ensures r.implementedInterfaces == g.implementedInterfaces + ContractNames(FieldChosen(opts, ans))
    ensures r.possibleLocations == g.possibleLocations + (if opts.forField then [FieldDefinition] else [])
    ensures r.requiredImports == g.requiredImports + ImportsFor(Fqns(FieldChosen(opts, ans)), files)
    ensures r.methodStubs == g.methodStubs + MethodsFor(Fqns(FieldChosen(opts, ans)), files)
    ensures g.requiredImports <= r.requiredImports
  {
    if opts.forField then CollectForField(g, ans, files)
    else
      assert ContractNames([]) == [] && Fqns([]) == [];
      AddedForNone(files);
      g
  }

  /** The `--argument` step of `buildClass`, run or skipped. */
  function ArgumentStep(opts: Options, ans: Answers, files: StubFiles, g: Generated): (r: Generated)
    ensures r.implementedInterfaces == g.implementedInterfaces + ContractNames(ArgumentChosen(opts, ans))
    ensures r.possibleLocations == g.possibleLocations + (if opts.forArgument then ans.argumentLocations else [])
    ensures r.requiredImports == g.requiredImports + ImportsFor(Fqns(ArgumentChosen(opts, ans)), files)
    ensures r.methodStubs == g.methodStubs + MethodsFor(Fqns(ArgumentChosen(opts, ans)), files)
    ensures g.requiredImports <= r.requiredImports
  {
    if opts.forArgument then CollectForArgument(g, ans, files)
    else
      assert ContractNames([]) == [] && Fqns([]) == [];
      AddedForNone(files);
      g
  }

  /** The collections after the three steps, starting from nothing. */
  function Collected(opts: Options, ans: Answers, files: StubFiles): Generated {
    ArgumentStep(opts, ans, files, FieldStep(opts, ans, files, TypeStep(opts, ans, files, Empty)))
  }

  /** Three steps that each append the names of their interfaces, starting
      from nothing, end with the names of all of them in order. */
  lemma NamesOfSteps(s1: seq<string>, s2: seq<string>, s3: seq<string>, t: seq<Contract>, f: seq<Contract>, a: seq<Contract>)
    requires s1 == [] + ContractNames(t)
    requires s2 == s1 + ContractNames(f)
    requires s3 == s2 + ContractNames(a)
    ensures s3 == ContractNames(t + f + a)
  {
    assert [] + ContractNames(t) == ContractNames(t);
    ContractNamesAppend(t, f);
    ContractNamesAppend(t + f, a);
  }

  /** Three steps that each append their locations, starting from nothing,
      end with all of them in order. */
  lemma LocationsOfSteps(s1: seq<string>, s2: seq<string>, s3: seq<string>, all: seq<string>,
                         tl: seq<string>, fl: seq<string>, al: seq<string>)
    requires s1 == [] + tl && s2 == s1 + fl && s3 == s2 + al
    requires all == tl + fl + al
    ensures s3 == all
  {
    assert [] + tl == tl;
  }

  /** Three steps that each add the import lines of their interfaces,
      starting from nothing, end with those of all of them in order. */
  lemma ImportsOfSteps(s1: seq<string>, s2: seq<string>, s3: seq<string>,
                       t: seq<Contract>, f: seq<Contract>, a: seq<Contract>, files: StubFiles)
    requires s1 == [] + ImportsFor(Fqns(t), files) && s2 == s1 + ImportsFor(Fqns(f), files)
    requires s3 == s2 + ImportsFor(Fqns(a), files)
    ensures s3 == ImportsFor(Fqns(t + f + a), files)
  {
    FqnsAppend(t, f);
    FqnsAppend(t + f, a);
    ImportsForAppend(Fqns(t), Fqns(f), files);
    ImportsForAppend(Fqns(t + f), Fqns(a), files);
    assert [] + ImportsFor(Fqns(t), files) == ImportsFor(Fqns(t), files);
  }

  /** Three steps that each add the method stubs of their interfaces,
      starting from nothing, end with those of all of them in order. */
  lemma MethodsOfSteps(m1: seq<string>, m2: seq<string>, m3: seq<string>,
                       t: seq<Contract>, f: seq<Contract>, a: seq<Contract>, files: StubFiles)
    requires m1 == [] + MethodsFor(Fqns(t), files) && m2 == m1 + MethodsFor(Fqns(f), files)
    requires m3 == m2 + MethodsFor(Fqns(a), files)
    ensures m3 == MethodsFor(Fqns(t + f + a), files)
  {
    FqnsAppend(t, f);
    FqnsAppend(t + f, a);
    MethodsForAppend(Fqns(t), Fqns(f), files);
    MethodsForAppend(Fqns(t + f), Fqns(a), files);
    assert [] + MethodsFor(Fqns(t), files) == MethodsFor(Fqns(t), files);
  }

  /** What the three steps collect: the names of the chosen interfaces and
      the chosen locations, each in the order type, field, argument. */
  lemma CollectedParts(opts: Options, ans: Answers, files: StubFiles)
    ensures Collected(opts, ans, files).implementedInterfaces == ContractNames(ChosenInterfaces(opts, ans))
    ensures Collected(opts, ans, files).possibleLocations == ChosenLocations(opts, ans)
  {
    var g1 := TypeStep(opts, ans, files, Empty);
    var g2 := FieldStep(opts, ans, files, g1);
    var g3 := ArgumentStep(opts, ans, files, g2);
    NamesOfSteps(g1.implementedInterfaces, g2.implementedInterfaces, g3.implementedInterfaces,
                 TypeChosen(opts, ans), FieldChosen(opts, ans), ArgumentChosen(opts, ans));
    LocationsOfSteps(g1.possibleLocations, g2.possibleLocations, g3.possibleLocations, ChosenLocations(opts, ans),
                     if opts.forType then ans.typeLocations else [],
                     if opts.forField then [FieldDefinition] else [],
                     if opts.forArgument then ans.argumentLocations else []);
  }

  /** The import lines the three steps add are those of the chosen
      interfaces, in the order type, field, argument. */
  lemma CollectedImports(opts: Options, ans: Answers, files: StubFiles)
    ensures Collected(opts, ans, files).requiredImports == ImportsFor(Fqns(ChosenInterfaces(opts, ans)), files)
  {
    var g1 := TypeStep(opts, ans, files, Empty);
    var g2 := FieldStep(opts, ans, files, g1);
    var g3 := ArgumentStep(opts, ans, files, g2);
    ImportsOfSteps(g1.requiredImports, g2.requiredImports, g3.requiredImports,
                   TypeChosen(opts, ans), FieldChosen(opts, ans), ArgumentChosen(opts, ans), files);
  }

  /** The method stubs the three steps add are those of the chosen
      interfaces, in the order type, field, argument. */
  lemma CollectedMethods(opts: Options, ans: Answers, files: StubFiles)
    ensures Collected(opts, ans, files).methodStubs == MethodsFor(Fqns(ChosenInterfaces(opts, ans)), files)
  {
    var g1 := TypeStep(opts, ans, files, Empty);
    var g2 := FieldStep(opts, ans, files, g1);
    var g3 := ArgumentStep(opts, ans, files, g2);
    MethodsOfSteps(g1.methodStubs, g2.methodStubs, g3.methodStubs,
                   TypeChosen(opts, ans), FieldChosen(opts, ans), ArgumentChosen(opts, ans), files);
  }

  /** No directive interface name spans a line break. */
  lemma ContractNameSingleLine(c: Contract)
    ensures '\n' !in ContractName(c)
  {
    match c
    case ArgTransformerDirective | ArgBuilderDirective | ArgResolver
       | ArgManipulator | ArgDirective | ArgDirectiveForArray =>
      ArgumentNamesSingleLine(c);
    case FieldResolver | FieldMiddleware | FieldManipulator =>
      FieldNamesSingleLine(c);
    case TypeManipulator | TypeMiddleware | TypeResolver | TypeExtensionManipulator =>
      TypeNamesSingleLine(c);
  }

  /** The same, for the argument interfaces. */
  lemma ArgumentNamesSingleLine(c: Contract)
    requires c.ArgTransformerDirective? || c.ArgBuilderDirective? || c.ArgResolver?
          || c.ArgManipulator? || c.ArgDirective? || c.ArgDirectiveForArray?
    ensures '\n' !in ContractName(c)
  {
  }

  /** The same, for the field interfaces. */
  lemma FieldNamesSingleLine(c: Contract)
    requires c.FieldResolver? || c.FieldMiddleware? || c.FieldManipulator?
    ensures '\n' !in ContractName(c)
  {
  }

  /** The same, for the type interfaces. */
  lemma TypeNamesSingleLine(c: Contract)
    requires c.TypeManipulator? || c.TypeMiddleware? || c.TypeResolver? || c.TypeExtensionManipulator?
    ensures '\n' !in ContractName(c)
  {
  }

  /** Nor does its fully-qualified name. */
  lemma FqnSingleLine(c: Contract)
    ensures '\n' !in Fqn(c)
  {
    ContractNameSingleLine(c);
    NamespaceSingleLine();
  }

  /** The namespace of the directive interfaces spans no line break. */
  lemma NamespaceSingleLine()
    ensures '\n' !in ContractsNamespace
  {
  }

  /** Nor does any name in a list of fully-qualified names. */
  lemma FqnsSingleLine(cs: seq<Contract>)
    ensures SingleLines(Fqns(cs))
  {
    forall i | 0 <= i < |cs|
      ensures '\n' !in Fqns(cs)[i]
    {
      FqnSingleLine(cs[i]);
    }
  }

  /** The import lines added for interfaces whose names span no line break
      span no line break either. */
  lemma {:induction false} ImportsForSingleLines(fqns: seq<string>, files: StubFiles)
    requires SingleLines(fqns)
    ensures SingleLines(ImportsFor(fqns, files))
    decreases |fqns|
  {
    if |fqns| > 0 {
      assert SingleLines(fqns[1..]) by {
        forall i | 0 <= i < |fqns| - 1
          ensures '\n' !in fqns[1..][i]
        {
          assert fqns[1..][i] == fqns[i + 1];
        }
      }
      ImportsForSingleLines(fqns[1..], files);
      UseStatementSingleLine(fqns[0]);
      var u := [UseStatement(fqns[0])];
      SingleLinesAppend(u, StubImports(ShortName(fqns[0]), files));
      SingleLinesAppend(u + StubImports(ShortName(fqns[0]), files), ImportsFor(fqns[1..], files));
    }
  }

  /** The import line of an interface whose name spans no line break spans
      none either. */
  lemma UseStatementSingleLine(fqn: string)
    requires '\n' !in fqn
    ensures '\n' !in UseStatement(fqn)
  {
    assert '\n' !in "use " && '\n' !in ";";
  }

  /** Lists of single lines, one after the other, are single lines. */
  lemma SingleLinesAppend(xs: seq<string>, ys: seq<string>)
    requires SingleLines(xs) && SingleLines(ys)
    ensures SingleLines(xs + ys)
  {
    forall i | 0 <= i < |xs + ys|
      ensures '\n' !in (xs + ys)[i]
    {
      if i < |xs| {
        assert (xs + ys)[i] == xs[i];
      } else {
        assert (xs + ys)[i] == ys[i - |xs|];
      }
    }
  }

  /** The collecting part of `buildClass`: throws when no flag is given, else
      fills the collections for each flag in the order type, field, argument. */
  function Collect(opts: Options, ans: Answers, files: StubFiles): (r: Result<Generated, string>)
    ensures r.Failure? <==> !opts.forType && !opts.forField && !opts.forArgument
    ensures r.Failure? ==> r.error == MissingTargetMessage
    ensures r.Success? ==> r.value.implementedInterfaces == ContractNames(ChosenInterfaces(opts, ans))
    ensures r.Success? ==> r.value.possibleLocations == ChosenLocations(opts, ans)
    ensures r.Success? ==> r.value.requiredImports == ImportsFor(Fqns(ChosenInterfaces(opts, ans)), files)
    ensures r.Success? ==> r.value.methodStubs == MethodsFor(Fqns(ChosenInterfaces(opts, ans)), files)
    ensures r.Success? ==> SingleLines(r.value.requiredImports)
  {
    if !opts.forType && !opts.forField && !opts.forArgument then Failure(MissingTargetMessage)
    else
      CollectedParts(opts, ans, files);
      CollectedImports(opts, ans, files);
      CollectedMethods(opts, ans, files);
      FqnsSingleLine(ChosenInterfaces(opts, ans));
      ImportsForSingleLines(Fqns(ChosenInterfaces(opts, ans)), files);
      Success(Collected(opts, ans, files))
  }

  /** The text that replaces `{{ imports }}`: the truthy import lines without
      repetitions, first occurrence kept, one per line. */
  function ImportsText(g: Generated): string {
    Join("\n", Unique(FilterTruthy(g.requiredImports)))
  }

  // ---------------------------------------------------------------------
  // Substituting

  /** A placeholder of the stub: a lower-case word in double braces. */
  function Placeholder(word: string): string {
    "{{ " + word + " }}"
  }

  /** A placeholder word: non-empty lower-case ASCII letters. */
  predicate IsWord(w: string) {
    |w| > 0 && forall i :: 0 <= i < |w| ==> 'a' <= w[i] <= 'z'
  }

  /** One `str_replace` of `buildClass`. */
  datatype Substitution = Substitution(word: string, value: string)

  /** The substitutions of `buildClass`, in the order it performs them. */
  function Substitutions(baseName: string, g: Generated): seq<Substitution> {
    [ Substitution("imports", ImportsText(g)),
      Substitution("name", LcFirst(baseName)),
      Substitution("locations", Join(" | ", g.possibleLocations)),
      Substitution("methods", Join("\n", g.methodStubs)),
      Substitution("implements", Join(", ", g.implementedInterfaces)) ]
  }

  /** The substitutions applied one after the other, each to the result of the last. */
  function ApplyAll(stub: string, subs: seq<Substitution>): string
    decreases |subs|
  {
    if |subs| == 0 then stub
    else ApplyAll(ReplaceAll(stub, Placeholder(subs[0].word), subs[0].value), subs[1..])
  }

  /** The substituting part of `buildClass`. */
  function Render(stub: string, baseName: string, g: Generated): string {
    ApplyAll(stub, Substitutions(baseName, g))
  }

  /** `buildClass($name)`, given the class stub the base generator prepared
      and the name the user typed. */
  function BuildClass(opts: Options, ans: Answers, files: StubFiles, stub: string, baseName: string): (r: Result<string, string>)
    ensures r.Failure? <==> !opts.forType && !opts.forField && !opts.forArgument
    ensures r.Failure? ==> r.error == MissingTargetMessage
  {
    match Collect(opts, ans, files)
    case Failure(e) => Failure(e)
    case Success(g) => Success(Render(stub, baseName, g))
  }

  // ---------------------------------------------------------------------
  // Properties of the collected parts

  /** Only the two argument base interfaces have their short names. */
  lemma ArgumentBaseNames(c: Contract)
    ensures ContractName(c) == "ArgDirective" <==> c == ArgDirective
    ensures ContractName(c) == "ArgDirectiveForArray" <==> c == ArgDirectiveForArray
  {
  }

  /** The short name of the argument base interface the answer picks. */
  lemma ArgumentBaseName(ans: Answers)
    ensures ContractName(ArgumentBase(ans)) == "ArgDirective" || ContractName(ArgumentBase(ans)) == "ArgDirectiveForArray"
  {
  }

  /** The names of interfaces other than the two argument base
      interfaces include neither base interface's name. */
  lemma ContractNamesWithoutBase(cs: seq<Contract>)
    requires forall i :: 0 <= i < |cs| ==> cs[i] != ArgDirective && cs[i] != ArgDirectiveForArray
    ensures "ArgDirective" !in ContractNames(cs) && "ArgDirectiveForArray" !in ContractNames(cs)
  {
    forall k | 0 <= k < |cs|
      ensures ContractNames(cs)[k] != "ArgDirective" && ContractNames(cs)[k] != "ArgDirectiveForArray"
    {
      ArgumentBaseNames(cs[k]);
    }
  }

  /** The interfaces an argument directive implements: those of the earlier
      flags, then the base interface, then the chosen argument interfaces. */
  lemma ArgumentImplementedShape(opts: Options, ans: Answers)
    requires opts.forArgument
    ensures
      ContractNames(ChosenInterfaces(opts, ans))
        == ContractNames(TypeChosen(opts, ans) + FieldChosen(opts, ans))
           + [ContractName(ArgumentBase(ans))] + ContractNames(ans.argumentInterfaces)
  {
    var t, f := TypeChosen(opts, ans), FieldChosen(opts, ans);
    var a := ans.argumentInterfaces;
    var c := ArgumentBase(ans);
    assert ChosenInterfaces(opts, ans) == (t + f) + ([c] + a);
    ContractNamesAppend(t + f, [c] + a);
    ContractNamesCons(c, a);
    AppendAssoc(ContractNames(t + f), [ContractName(c)], ContractNames(a));
  }

  /** A list holding one marker between two lists free of both markers holds
      exactly one marker. */
  lemma OneMarker(front: seq<string>, mark: string, back: seq<string>, x: string, y: string)
    requires mark == x || mark == y
    requires x !in front + back && y !in front + back && x != y
    ensures multiset(front + [mark] + back)[x] + multiset(front + [mark] + back)[y] == 1
  {
    assert multiset(front + [mark] + back) == multiset(front) + multiset([mark]) + multiset(back);
    assert x !in front && x !in back && y !in front && y !in back;
  }

  /** The marker of a list built around it sits right before the back part. */
  lemma MarkerPosition(front: seq<string>, mark: string, back: seq<string>)
    ensures var s := front + [mark] + back;
      s[|s| - |back| - 1] == mark && s[|s| - |back|..] == back
  {
    var s := front + [mark] + back;
    assert s[|front| + 1..] == back;
  }

  /** The type and field interfaces of valid answers are not argument base interfaces. */
  lemma EarlierInterfacesNotBase(opts: Options, ans: Answers)
    requires ValidAnswers(ans)
    ensures
      var earlier := TypeChosen(opts, ans) + FieldChosen(opts, ans);
      "ArgDirective" !in ContractNames(earlier) && "ArgDirectiveForArray" !in ContractNames(earlier)
  {
    var t, f := TypeChosen(opts, ans), FieldChosen(opts, ans);
    forall i | 0 <= i < |t + f|
      ensures (t + f)[i] != ArgDirective && (t + f)[i] != ArgDirectiveForArray
    {
      if i < |t| {
        assert (t + f)[i] == ans.typeInterfaces[i];
      } else {
        assert (t + f)[i] == ans.fieldInterfaces[i - |t|];
      }
    }
    ContractNamesWithoutBase(t + f);
  }

  /** The names of the interfaces chosen for an argument directive hold
      exactly one of `ArgDirective` and `ArgDirectiveForArray`. */
  lemma ChosenNamesHoldOneBase(opts: Options, ans: Answers)
    requires opts.forArgument && ValidAnswers(ans)
    ensures
      var names := ContractNames(ChosenInterfaces(opts, ans));
      multiset(names)["ArgDirective"] + multiset(names)["ArgDirectiveForArray"] == 1
  {
    var front := ContractNames(TypeChosen(opts, ans) + FieldChosen(opts, ans));
    var back := ContractNames(ans.argumentInterfaces);
    ArgumentImplementedShape(opts, ans);
    EarlierInterfacesNotBase(opts, ans);
    ContractNamesWithoutBase(ans.argumentInterfaces);
    ArgumentBaseName(ans);
    OneMarker(front, ContractName(ArgumentBase(ans)), back, "ArgDirective", "ArgDirectiveForArray");
  }

  /** The names of the interfaces chosen for an argument directive end with
      the base interface the confirm answer picks followed by the argument
      interfaces. */
  lemma ChosenNamesEndWithArgument(opts: Options, ans: Answers)
    requires opts.forArgument
    ensures
      var names := ContractNames(ChosenInterfaces(opts, ans));
      && names[|names| - |ans.argumentInterfaces| - 1] == ContractName(ArgumentBase(ans))
      && names[|names| - |ans.argumentInterfaces|..] == ContractNames(ans.argumentInterfaces)
  {
    ArgumentImplementedShape(opts, ans);
    MarkerPosition(ContractNames(TypeChosen(opts, ans) + FieldChosen(opts, ans)),
                   ContractName(ArgumentBase(ans)), ContractNames(ans.argumentInterfaces));
  }

  /** An argument directive implements exactly one of `ArgDirective` and
      `ArgDirectiveForArray`, the one the confirm answer picks, and it comes
      right before the argument interfaces the user chose. */
  lemma ArgumentDirectiveImplementsOneBase(opts: Options, ans: Answers, files: StubFiles, g: Generated)
    requires opts.forArgument && ValidAnswers(ans)
    requires Collect(opts, ans, files) == Success(g)
    ensures
      var implemented := g.implementedInterfaces;
      && multiset(implemented)["ArgDirective"] + multiset(implemented)["ArgDirectiveForArray"] == 1
      && implemented[|implemented| - |ans.argumentInterfaces| - 1] == ContractName(ArgumentBase(ans))
      && implemented[|implemented| - |ans.argumentInterfaces|..] == ContractNames(ans.argumentInterfaces)
  {
    ChosenNamesHoldOneBase(opts, ans);
    ChosenNamesEndWithArgument(opts, ans);
  }

  /** A field directive can always be used on field definitions, whatever
      else was chosen. */
  lemma FieldDirectiveOnFieldDefinition(opts: Options, ans: Answers, files: StubFiles)
    requires opts.forField
    ensures FieldDefinition in Collect(opts, ans, files).value.possibleLocations
  {
    var front := if opts.forType then ans.typeLocations else [];
    var back := if opts.forArgument then ans.argumentLocations else [];
    assert ChosenLocations(opts, ans) == front + [FieldDefinition] + back;
    assert ChosenLocations(opts, ans)[|front|] == FieldDefinition;
  }

  /** The distinct truthy import lines hold no line break. */
  lemma UniqueImportsAreSingleLines(g: Generated)
    requires SingleLines(g.requiredImports)
    ensures SingleLines(Unique(FilterTruthy(g.requiredImports)))
  {
    var kept := FilterTruthy(g.requiredImports);
    var u := Unique(kept);
    forall k | 0 <= k < |u|
      ensures '\n' !in u[k]
    {
      assert u[k] in kept;
      assert u[k] in g.requiredImports;
    }
  }

  /** Every truthy import line is among the distinct truthy import lines. */
  lemma UniqueImportsComplete(g: Generated)
    ensures forall i :: 0 <= i < |g.requiredImports| && Truthy(g.requiredImports[i]) ==>
      g.requiredImports[i] in Unique(FilterTruthy(g.requiredImports))
  {
    var kept := FilterTruthy(g.requiredImports);
    forall i | 0 <= i < |g.requiredImports| && Truthy(g.requiredImports[i])
      ensures g.requiredImports[i] in Unique(kept)
    {
      assert g.requiredImports[i] in kept;
      var j :| 0 <= j < |kept| && kept[j] == g.requiredImports[i];
    }
  }

  /** The distinct truthy import lines are truthy import lines. */
  lemma UniqueImportsSound(g: Generated)
    ensures var u := Unique(FilterTruthy(g.requiredImports));
      forall k :: 0 <= k < |u| ==> Truthy(u[k]) && u[k] in g.requiredImports
  {
    var kept := FilterTruthy(g.requiredImports);
    var u := Unique(kept);
    forall k | 0 <= k < |u|
      ensures Truthy(u[k]) && u[k] in g.requiredImports
    {
      assert u[k] in kept;
    }
  }

  /** The imports text lists, one per line, each truthy import line once, in
      the order of first occurrence, and nothing else. */
  lemma ImportsTextLines(g: Generated)
    requires SingleLines(g.requiredImports)
    requires FilterTruthy(g.requiredImports) != []
    ensures
      var lines := Split(ImportsText(g), '\n');
      && lines == Unique(FilterTruthy(g.requiredImports))
      && (forall k :: 0 <= k < |lines| ==> Truthy(lines[k]) && lines[k] in g.requiredImports)
      && (forall i :: 0 <= i < |g.requiredImports| && Truthy(g.requiredImports[i]) ==> g.requiredImports[i] in lines)
      && (forall k, l :: 0 <= k < l < |lines| ==> lines[k] != lines[l])
  {
    var kept := FilterTruthy(g.requiredImports);
    var u := Unique(kept);
    assert kept[0] in u;
    UniqueImportsAreSingleLines(g);
    SplitJoin(u, '\n');
    UniqueImportsComplete(g);
    UniqueImportsSound(g);
  }

  /** Every interface of `fqns` has its `use` line among the imports of `g`. */
  predicate ImportsAll(g: Generated, fqns: seq<string>) {
    forall i :: 0 <= i < |fqns| ==> UseStatement(fqns[i]) in g.requiredImports
  }

  /** The import lines added for a list of interfaces hold the `use` line of
      the interface at position `i`: it opens the lines added for the rest of
      the list from `i` on. */
  lemma ImportsForHasUse(fqns: seq<string>, i: nat, files: StubFiles)
    requires i < |fqns|
    ensures UseStatement(fqns[i]) in ImportsFor(fqns, files)
  {
    assert fqns == fqns[..i] + fqns[i..];
    ImportsForAppend(fqns[..i], fqns[i..], files);
    var before := ImportsFor(fqns[..i], files);
    var rest := ImportsFor(fqns[i..], files);
    assert rest[0] == UseStatement(fqns[i]);
    assert (before + rest)[|before|] == rest[0];
  }

  /** The import lines added for a list of interfaces hold the `use` line of each. */
  lemma ImportsForHasUses(fqns: seq<string>, files: StubFiles)
    ensures forall i :: 0 <= i < |fqns| ==> UseStatement(fqns[i]) in ImportsFor(fqns, files)
  {
    forall i | 0 <= i < |fqns|
      ensures UseStatement(fqns[i]) in ImportsFor(fqns, files)
    {
      ImportsForHasUse(fqns, i, files);
    }
  }

  /** The collected imports hold the `use` line of every implemented interface. */
  lemma CollectImportsAll(opts: Options, ans: Answers, files: StubFiles)
    ensures ImportsAll(Collected(opts, ans, files), Fqns(ChosenInterfaces(opts, ans)))
  {
    CollectedImports(opts, ans, files);
    ImportsForHasUses(Fqns(ChosenInterfaces(opts, ans)), files);
  }

  /** A `use` line among the imports survives the filtering and the removal
      of repetitions that build the imports text. */
  lemma UseLinesKept(g: Generated, fqns: seq<string>)
    requires ImportsAll(g, fqns)
    ensures forall i :: 0 <= i < |fqns| ==> UseStatement(fqns[i]) in Unique(FilterTruthy(g.requiredImports))
  {
    var kept := FilterTruthy(g.requiredImports);
    forall i | 0 <= i < |fqns|
      ensures UseStatement(fqns[i]) in Unique(kept)
    {
      var u := UseStatement(fqns[i]);
      assert u[0] == 'u';
      assert u in kept;
      var j :| 0 <= j < |kept| && kept[j] == u;
    }
  }

  /** The `use` lines of interfaces imported by `g` survive into the lines
      of its imports text. */
  lemma UseLinesOfContracts(g: Generated, cs: seq<Contract>)
    requires ImportsAll(g, Fqns(cs))
    ensures forall c :: c in cs ==> UseStatement(Fqn(c)) in Unique(FilterTruthy(g.requiredImports))
  {
    UseLinesKept(g, Fqns(cs));
    forall c | c in cs
      ensures UseStatement(Fqn(c)) in Unique(FilterTruthy(g.requiredImports))
    {
      var i :| 0 <= i < |cs| && cs[i] == c;
      assert Fqns(cs)[i] == Fqn(c);
    }
  }

  /** Every interface the generated class implements has its `use` line
      among the lines that make up the imports text. */
  lemma EveryImplementedInterfaceImported(opts: Options, ans: Answers, files: StubFiles, g: Generated)
    requires Collect(opts, ans, files) == Success(g)
    ensures
      var lines := Unique(FilterTruthy(g.requiredImports));
      forall c :: c in ChosenInterfaces(opts, ans) ==> UseStatement(Fqn(c)) in lines
  {
    CollectImportsAll(opts, ans, files);
    UseLinesOfContracts(Collected(opts, ans, files), ChosenInterfaces(opts, ans));
  }

  /** The imports text of a collected class lists, one per line, each truthy
      import line once in the order of first occurrence, among them the `use`
      line of every chosen interface. */
  lemma CollectedImportsTextLines(opts: Options, ans: Answers, files: StubFiles, g: Generated)
    requires Collect(opts, ans, files) == Success(g)
    requires FilterTruthy(g.requiredImports) != []
    ensures Split(ImportsText(g), '\n') == Unique(FilterTruthy(g.requiredImports))
    ensures forall c :: c in ChosenInterfaces(opts, ans) ==> UseStatement(Fqn(c)) in Split(ImportsText(g), '\n')
  {
    ImportsTextLines(g);
    EveryImplementedInterfaceImported(opts, ans, files, g);
  }

  // ---------------------------------------------------------------------
  // Properties of the substitution

  /** The layout of a placeholder, character by character. */
  lemma PlaceholderChars(w: string)
    ensures var p := Placeholder(w);
      && |p| == |w| + 6
      && p[0] == '{' && p[1] == '{' && p[2] == ' '
      && (forall k :: 0 <= k < |w| ==> p[3 + k] == w[k])
      && p[3 + |w|] == ' ' && p[4 + |w|] == '}' && p[5 + |w|] == '}'
  {
  }

  /** Two different placeholders differ at a position both of them have. */
  lemma PlaceholderMismatch(w: string, v: string) returns (k: nat)
    requires IsWord(w) && IsWord(v) && w != v
    ensures k < |Placeholder(w)| && k < |Placeholder(v)| && Placeholder(w)[k] != Placeholder(v)[k]
  {
    PlaceholderChars(w);
    PlaceholderChars(v);
    if |w| < |v| {
      k := 3 + |w|;
    } else if |v| < |w| {
      k := 3 + |v|;
    } else {
      var j :| 0 <= j < |w| && w[j] != v[j];
      k := 3 + j;
    }
  }

  /** A class stub read as a sequence of pieces: literal text and placeholders. */
  datatype Piece = Text(text: string) | Hole(word: string)

  /** The text of one piece. */
  function PieceText(p: Piece): string {
    match p
    case Text(t) => t
    case Hole(w) => Placeholder(w)
  }

  /** The stub a sequence of pieces spells out. */
  function Layout(ps: seq<Piece>): string
    decreases |ps|
  {
    if |ps| == 0 then "" else PieceText(ps[0]) + Layout(ps[1..])
  }

  /** A literal text in which every opening brace is followed by a character
      other than an opening brace, so that no placeholder starts inside it. */
  predicate Plain(t: string) {
    forall i :: 0 <= i < |t| && t[i] == '{' ==> i + 1 < |t| && t[i + 1] != '{'
  }

  /** A literal text is plain; a placeholder has a placeholder word. */
  predicate PlainPiece(p: Piece) {
    match p
    case Text(t) => Plain(t)
    case Hole(w) => IsWord(w)
  }

  predicate PlainPieces(ps: seq<Piece>) {
    forall j :: 0 <= j < |ps| ==> PlainPiece(ps[j])
  }

  /** The value of the first substitution for `word`, if any. */
  function ValueOf(subs: seq<Substitution>, word: string): Option<string>
    decreases |subs|
  {
    if |subs| == 0 then None
    else if subs[0].word == word then Some(subs[0].value)
    else ValueOf(subs[1..], word)
  }

  /** A piece with its placeholder filled in from `subs`; a placeholder that
      no substitution names stays as it is. */
  function FillPiece(p: Piece, subs: seq<Substitution>): string {
    match p
    case Text(t) => t
    case Hole(w) => if ValueOf(subs, w).Some? then ValueOf(subs, w).value else Placeholder(w)
  }

  /** The stub with every placeholder filled in, all in one pass: the segments
      of literal text interleaved with the values. */
  function Filled(ps: seq<Piece>, subs: seq<Substitution>): string
    decreases |ps|
  {
    if |ps| == 0 then "" else FillPiece(ps[0], subs) + Filled(ps[1..], subs)
  }

  /** A piece after one substitution: its placeholder has become literal text. */
  function SubstPiece(p: Piece, s: Substitution): Piece {
    if p == Hole(s.word) then Text(s.value) else p
  }

  function SubstPieces(ps: seq<Piece>, s: Substitution): (r: seq<Piece>)
    ensures |r| == |ps| && forall j {:trigger r[j]} :: 0 <= j < |ps| ==> r[j] == SubstPiece(ps[j], s)
  {
    seq(|ps|, j requires 0 <= j < |ps| => SubstPiece(ps[j], s))
  }

  /** No placeholder starts inside a plain text, whatever follows it. */
  lemma PlainTextHoldsNoPlaceholder(t: string, x: string, w: string)
    requires Plain(t)
    ensures forall i :: 0 <= i < |t| ==> !OccursAt(t + x, Placeholder(w), i)
  {
    var s, p := t + x, Placeholder(w);
    PlaceholderChars(w);
    forall i | 0 <= i < |t|
      ensures !OccursAt(s, p, i)
    {
      if i + |p| > |s| {
      } else if t[i] == '{' {
        assert s[i..i + |p|][1] == t[i + 1];
      } else {
        assert s[i..i + |p|][0] == t[i];
      }
    }
  }

  /** No placeholder but itself starts inside a placeholder, whatever follows it. */
  lemma OtherPlaceholderHoldsNone(w: string, v: string, x: string)
    requires IsWord(w) && IsWord(v) && w != v
    ensures forall i :: 0 <= i < |Placeholder(w)| ==> !OccursAt(Placeholder(w) + x, Placeholder(v), i)
  {
    var pw, pv := Placeholder(w), Placeholder(v);
    var s := pw + x;
    PlaceholderChars(w);
    PlaceholderChars(v);
    forall i | 0 <= i < |pw|
      ensures !OccursAt(s, pv, i)
    {
      if i + |pv| > |s| {
      } else if i == 0 {
        var k := PlaceholderMismatch(w, v);
        assert s[i..i + |pv|][k] == pw[k];
      } else if i == 1 {
        assert s[i..i + |pv|][1] == pw[2];
      } else {
        assert s[i..i + |pv|][0] == pw[i];
        if 3 <= i < 3 + |w| {
          assert pw[3 + (i - 3)] == w[i - 3];
        }
      }
    }
  }

  /** One substitution applied to a piece followed by any text `rest`: the
      piece comes out as the substitution makes it and the scan carries on
      in `rest`. */
  lemma ReplaceAfterPiece(p: Piece, rest: string, s: Substitution)
    requires PlainPiece(p) && IsWord(s.word)
    ensures ReplaceAll(PieceText(p) + rest, Placeholder(s.word), s.value)
         == PieceText(SubstPiece(p, s)) + ReplaceAll(rest, Placeholder(s.word), s.value)
  {
    var ph := Placeholder(s.word);
    PlaceholderChars(s.word);
    match p
    case Text(t) =>
      PlainTextHoldsNoPlaceholder(t, rest, s.word);
      ReplaceSkipsPrefix(t, rest, ph, s.value);
    case Hole(w) =>
      if w == s.word {
        assert "" + ph + rest == ph + rest;
        ReplaceFirstOccurrence("", ph, rest, s.value);
      } else {
        OtherPlaceholderHoldsNone(w, s.word, rest);
        ReplaceSkipsPrefix(Placeholder(w), rest, ph, s.value);
      }
  }

  /** One substitution applied to a laid-out stub replaces exactly the
      placeholders it names. */
  lemma {:induction false} ReplaceInLayout(ps: seq<Piece>, s: Substitution)
    requires PlainPieces(ps) && IsWord(s.word)
    ensures ReplaceAll(Layout(ps), Placeholder(s.word), s.value) == Layout(SubstPieces(ps, s))
    decreases |ps|
  {
    if |ps| == 0 {
      PlaceholderChars(s.word);
    } else {
      ReplaceInLayout(ps[1..], s);
      assert PlainPiece(ps[0]);
      ReplaceAfterPiece(ps[0], Layout(ps[1..]), s);
      assert SubstPieces(ps, s)[1..] == SubstPieces(ps[1..], s);
    }
  }

  /** Filling the pieces left by the first substitution with the remaining
      ones is filling the original pieces with all of them. */
  lemma {:induction false} FilledAfterSubst(ps: seq<Piece>, subs: seq<Substitution>)
    requires |subs| > 0
    ensures Filled(SubstPieces(ps, subs[0]), subs[1..]) == Filled(ps, subs)
    decreases |ps|
  {
    if |ps| > 0 {
      FilledAfterSubst(ps[1..], subs);
      assert SubstPieces(ps, subs[0])[1..] == SubstPieces(ps[1..], subs[0]);
    }
  }

  /** Without substitutions every placeholder stays: the stub itself. */
  lemma {:induction false} FilledByNothing(ps: seq<Piece>)
    ensures Filled(ps, []) == Layout(ps)
    decreases |ps|
  {
    if |ps| > 0 {
      FilledByNothing(ps[1..]);
    }
  }

  /** Applying the substitutions one after the other to a stub laid out from
      plain texts and placeholders fills every placeholder with the value of
      the first substitution naming it, and leaves the texts in between as
      they are. Every value but the last must be plain, so that no value
      supplies a placeholder for a later step to act on. */
  lemma {:induction false} ApplyAllFillsLayout(ps: seq<Piece>, subs: seq<Substitution>)
    requires PlainPieces(ps)
    requires forall j :: 0 <= j < |subs| ==> IsWord(subs[j].word)
    requires forall j :: 0 <= j < |subs| - 1 ==> Plain(subs[j].value)
    ensures ApplyAll(Layout(ps), subs) == Filled(ps, subs)
    decreases |subs|
  {
    if |subs| == 0 {
      FilledByNothing(ps);
    } else {
      var ps' := SubstPieces(ps, subs[0]);
      ReplaceInLayout(ps, subs[0]);
      if |subs| == 1 {
        FilledByNothing(ps');
      } else {
        assert PlainPieces(ps') by {
          forall j | 0 <= j < |ps'|
            ensures PlainPiece(ps'[j])
          {
            assert PlainPiece(ps[j]);
          }
        }
        ApplyAllFillsLayout(ps', subs[1..]);
      }
      FilledAfterSubst(ps, subs);
    }
  }

  /** Which value `buildClass` puts in for each of its five placeholders. */
  lemma SubstitutionValues(baseName: string, g: Generated)
    ensures var subs := Substitutions(baseName, g);
      && ValueOf(subs, "imports") == Some(ImportsText(g))
      && ValueOf(subs, "name") == Some(LcFirst(baseName))
      && ValueOf(subs, "locations") == Some(Join(" | ", g.possibleLocations))
      && ValueOf(subs, "methods") == Some(Join("\n", g.methodStubs))
      && ValueOf(subs, "implements") == Some(Join(", ", g.implementedInterfaces))
  {
    var subs := Substitutions(baseName, g);
    assert "imports"[0] != "methods"[0];
    assert subs[1..][1..] == subs[2..] && subs[2..][1..] == subs[3..] && subs[3..][1..] == subs[4..];
    assert ValueOf(subs, "locations") == ValueOf(subs[1..], "locations") == ValueOf(subs[2..], "locations");
    assert ValueOf(subs, "methods") == ValueOf(subs[1..], "methods") == ValueOf(subs[2..], "methods")
        == ValueOf(subs[3..], "methods");
    assert ValueOf(subs, "implements") == ValueOf(subs[1..], "implements") == ValueOf(subs[2..], "implements")
        == ValueOf(subs[3..], "implements") == ValueOf(subs[4..], "implements");
  }

  /** The substituting part of `buildClass` on a stub laid out from plain
      texts and placeholders: each of the five placeholders is filled with
      its value and any other placeholder stays, provided the values put in
      before the last one are plain. */
  lemma RenderFillsLayout(ps: seq<Piece>, baseName: string, g: Generated)
    requires PlainPieces(ps)
    requires Plain(ImportsText(g)) && Plain(LcFirst(baseName))
    requires Plain(Join(" | ", g.possibleLocations)) && Plain(Join("\n", g.methodStubs))
    ensures Render(Layout(ps), baseName, g) == Filled(ps, Substitutions(baseName, g))
  {
    ApplyAllFillsLayout(ps, Substitutions(baseName, g));
  }

  /** `buildClass` on a laid-out stub, when a target was chosen: the stub with
      its placeholders filled from the collected parts. */
  lemma BuildClassFillsStub(opts: Options, ans: Answers, files: StubFiles, g: Generated, ps: seq<Piece>, baseName: string)
    requires Collect(opts, ans, files) == Success(g)
    requires PlainPieces(ps)
    requires Plain(ImportsText(g)) && Plain(LcFirst(baseName))
    requires Plain(Join(" | ", g.possibleLocations)) && Plain(Join("\n", g.methodStubs))
    ensures BuildClass(opts, ans, files, Layout(ps), baseName) == Success(Filled(ps, Substitutions(baseName, g)))
  {
    RenderFillsLayout(ps, baseName, g);
  }
}
