# Compiscript semantic checker, modelled in Dafny

The model covers the semantic checker of the Compiscript analyzer. It walks a
parsed program, keeps a tree of scopes (`Entorno`) holding `Symbol`s, types
expressions with cooperating visitors, and appends `SemanticError`s to one
shared list.

The three expression visitors are:

- **VariableVisitor**: arithmetic, unary, literal and primary expressions;
  it types initializers, conditions of `switch` and `foreach`, and values.
- **ComparisonVisitor**: equality and relational compatibility; it types
  conditions, expression statements and `print`.
- **LogicalVisitor**: `||`, `&&`, equality and relational chains. The walk
  never reaches it: only SemanticVisitor's own `visitLogicalOrExpr` and
  friends call it, and the walk hands expressions to the two visitors
  above, which type those levels by their own rules.
  Its rules are modelled and compared with the others in lemmas.

Declarations are handed to the class listener inside a class and to
FunctionsVisitor for functions, calls and `return`. The model also covers the
reader of the LISP-style parse-tree dump (`parse_sexpr`) of the tree
generator.

## Layout

| file | module | what it holds |
|---|---|---|
| `options.dfy` | `Options` | `Option` |
| `strings.dfy` | `Strings` | decimal rendering of numbers; `startsWith`, `endsWith`, `contains` and `split("=")[0]` |
| `types.dfy` | `Types` | the type names; how a Java `null` type is rendered |
| `semantic_error.dfy` | `Errors` | `SemanticError`, the message builders and the append-only error list (class `ErrorLog`) |
| `symbol.dfy` | `Symbols` | class `Symbol`, whose setters update it in place |
| `syntax.dfy` | `Syntax` | the parse tree the checker walks, and the text (`getText`) of each node |
| `scopes.dfy` | `Scopes` | the scope tree as an arena of scopes, the lookups on it, and class `ScopeTree` with the current scope |
| `variable_rules.dfy`, `logical_rules.dfy`, `comparison_rules.dfy`, `function_rules.dfy`, `class_rules.dfy` | | the per-step rules of each visitor as functions, with lemmas about them |
| `expr_types.dfy`, `expr_facts.dfy` | `ExprTypes`, `ExprFacts` | the type and errors each visitor gives an expression (`TypeOf`), and what is proved about it |
| `expr_visitors.dfy` | `ExprVisitors` | the expression visitors as methods that append to the error list, each proved to agree with `TypeOf` |
| `walker_rules.dfy` | `WalkerRules` | statement messages, and the scope-tree relations `Extends` and `Sealed` |
| `semantic_visitor.dfy` | `Analyzer` | class `SemanticVisitor`: the statement walk, declarations, functions, classes, constructor checking and assignments |
| `sexpr.dfy` | `Sexpr` | the tokenizer and reader of the tree dump, with its round trip |

Each method on the checker states how the scope tree changes and which
symbols it creates. The errors it appends are stated exactly, in order, as a
function of the state before the call (`StmtErrors` and friends), for every
statement that declares nothing at any depth. For a statement that declares
something inside a nested block, the errors of the declaring part are stated
by the declaration's own method; the enclosing statement then states its
leading errors (condition, subject, header) and that the log only grows.

The properties the source relies on are proved as lemmas about these
functions. Examples:

- Lookups find the nearest declaration.
- A block leaves every existing scope as it was.
- Arithmetic and logical chains are well typed exactly when every operand is.
- A call reports one error per ill-typed argument.
- A constructor that only copies parameters into members is accepted and initializes exactly those members.
- A dumped tree reads back as itself.

## Model

| member | source | states |
|---|---|---|
| Strings.NatToString | analizador/src/main/java/com/fmd/FunctionsVisitor.java:142-145 | the count in an arity message is its decimal numeral: digits only, no leading zero, reading back (ParseNat) as the count |
| Strings.IntToString | analizador/src/main/java/com/fmd/modules/SemanticError.java:68-70 | an int is its decimal numeral: '-' exactly when negative, then digits reading back as its magnitude |
| Strings.BeforeFirst | analizador/src/main/java/com/fmd/ClassesListener.java:162 | `split("=")[0]`: a prefix of the text without the separator, followed by the separator when shorter than the text |
| Strings.BeforeFirstOfJoined | analizador/src/main/java/com/fmd/ClassesListener.java:162 | splitting `u=v` at the first '=' gives `u` back when `u` holds no '=' |
| Strings.Repeat | analizador/src/main/java/com/fmd/FunctionsVisitor.java:206-211 | k copies of a string: k times as long, starting with the string, each character equal to the one a string length earlier |
| Strings.NatToStringInjective | analizador/src/main/java/com/fmd/FunctionsVisitor.java:142-145 | different counts give different numerals |
| Types.ShowEqualIff | analizador/src/main/java/com/fmd/ComparisonVisitor.java:30-34 | a fact about the model's encoding of a Java null type, which a message such as this one concatenates: two types render alike exactly when they are equal or both read as "null" |
| Errors.SemanticError.ToString | analizador/src/main/java/com/fmd/modules/SemanticError.java:68-70 | the rendering is the marker and the message, immediately followed by the line and column part and nothing else |
| Errors.LogicalMessageSides | analizador/src/main/java/com/fmd/modules/SemanticError.java:19-53 | the logical operand messages of the two sides differ only in the side word |
| Errors.ErrorLog.constructor | analizador/src/main/java/com/fmd/SemanticVisitor.java:19 | the error list starts empty |
| Errors.ErrorLog.Add | analizador/src/main/java/com/fmd/SemanticVisitor.java:459-461 | agregarError appends exactly one error with the message, line and column |
| Symbols.Symbol.constructor | analizador/src/main/java/com/fmd/modules/Symbol.java:44-54 | name, kind, type, position and mutability are as given; no parameters, members or captures; not initialized, not a constructor, not nested |
| Symbols.Symbol.AddParameter | analizador/src/main/java/com/fmd/modules/Symbol.java:96-98 | the parameter is appended and earlier parameters keep their positions; the count grows by one |
| Symbols.Symbol.SetEnclosingFunctionName | analizador/src/main/java/com/fmd/modules/Symbol.java:104-106 | records the enclosing function's name |
| Symbols.Symbol.SetNested | analizador/src/main/java/com/fmd/modules/Symbol.java:112-114 | records whether the function is nested |
| Symbols.Symbol.SetCapturedVariables | analizador/src/main/java/com/fmd/modules/Symbol.java:120-122 | records the captured names |
| Symbols.Symbol.SetSuperClass | analizador/src/main/java/com/fmd/modules/Symbol.java:124-126 | records the superclass name |
| Symbols.Symbol.SetEnclosingClassName | analizador/src/main/java/com/fmd/modules/Symbol.java:132-134 | records the enclosing class name |
| Symbols.Symbol.AddMember | analizador/src/main/java/com/fmd/modules/Symbol.java:148-150 | the member is stored under its own name, replacing only a member of that name; every other entry is unchanged |
| Symbols.Symbol.SetInitialized | analizador/src/main/java/com/fmd/modules/Symbol.java:154 | records whether the member is initialized |
| Symbols.Symbol.SetConstructor | analizador/src/main/java/com/fmd/modules/Symbol.java:160-162 | records whether the method is the constructor |
| Symbols.Symbol.ToString | analizador/src/main/java/com/fmd/modules/Symbol.java:222-225 | the rendering is the kind, name and type, immediately followed by the line and column part and nothing else |
| Symbols.ParamTypes | analizador/src/main/java/com/fmd/FunctionsVisitor.java:150-156 | the parameters' declared types, one per parameter, in order |
| Scopes.Obtain | analizador/src/main/java/com/fmd/SemanticVisitor.java:85-91 | a symbol obtener finds is one stored in the tree (nearest-first: ObtainIsNearest) |
| Scopes.Chain | analizador/src/main/java/com/fmd/SemanticVisitor.java:85-91 | the scopes a lookup visits run from the scope itself up through its parents to the root |
| Scopes.ObtainIsNearest | analizador/src/main/java/com/fmd/SemanticVisitor.java:85-91 | obtener returns the entry of the first scope on the parent chain declaring the name, and null when none does |
| Scopes.ExistsGlobalIffObtain | analizador/src/main/java/com/fmd/SemanticVisitor.java:71-91 | existeGlobal holds exactly when obtener finds a symbol; existeLocal implies both, with the local entry found |
| Scopes.AllSymbolsAgrees | analizador/src/main/java/com/fmd/SemanticVisitor.java:99-105 | getAllSymbols has a name exactly when obtener finds it, and maps it to the same symbol |
| Scopes.ChildrenSymbolsIncludes | analizador/src/main/java/com/fmd/SemanticVisitor.java:121-136 | merging children's maps keeps every earlier name and adds every child subtree's names |
| Scopes.AllScopesSymbolsCovers | analizador/src/main/java/com/fmd/SemanticVisitor.java:121-136 | getAllScopesSymbols of a scope names everything visible from it and everything declared anywhere below it |
| Scopes.AllScopesSymbolsMonotone | analizador/src/main/java/com/fmd/SemanticVisitor.java:121-136 | a subtree's getAllScopesSymbols names are among its ancestor's |
| Scopes.ObtainFramed | analizador/src/main/java/com/fmd/SemanticVisitor.java:85-91 | a lookup depends only on the scope and its ancestors |
| Scopes.AddTo | analizador/src/main/java/com/fmd/SemanticVisitor.java:81-83 | agregar replaces or adds the name in one scope only, keeps the tree's shape and keeps it well formed |
| Scopes.Entered | analizador/src/main/java/com/fmd/SemanticVisitor.java:52-57 | a new child scope adds one scope and keeps the tree well formed |
| Scopes.EnteredWellFormed | analizador/src/main/java/com/fmd/SemanticVisitor.java:52-57 | appending a child that names its parent, and is registered among the parent's children, keeps the tree well formed |
| Scopes.AddToEffect | analizador/src/main/java/com/fmd/SemanticVisitor.java:81-83 | after agregar the name resolves to the new symbol from that scope; lookups of other names, or from scopes not below it, are unchanged |
| Scopes.EnteredEffect | analizador/src/main/java/com/fmd/SemanticVisitor.java:435-443 | a fresh child sees what its parent sees; old scopes see what they saw; leaving it returns to the parent |
| Scopes.AddAllTo | analizador/src/main/java/com/fmd/FunctionsVisitor.java:52-62 | declaring parameters one after another keeps the number of scopes and well-formedness |
| Scopes.AddAllToShape | analizador/src/main/java/com/fmd/FunctionsVisitor.java:52-62 | declaring parameters changes no scope's parent or children |
| Scopes.AddAllToEffect | analizador/src/main/java/com/fmd/FunctionsVisitor.java:52-62 | declaring parameters changes no lookup of a name that is not a parameter's |
| Scopes.RecursionResolves | analizador/src/main/java/com/fmd/FunctionsVisitor.java:31-62 | the function is declared before its scope is entered, so its name resolves inside its body unless a parameter shadows it |
| Scopes.SymbolsOfAddTo | analizador/src/main/java/com/fmd/SemanticVisitor.java:81-83 | agregar stores no symbol besides the new one |
| Scopes.SymbolsOfEntered | analizador/src/main/java/com/fmd/SemanticVisitor.java:435-437 | entrarScope stores no symbol |
| Scopes.ScopeTree.constructor | analizador/src/main/java/com/fmd/SemanticVisitor.java:34-37 | one empty root scope, which is the current one |
| Scopes.ScopeTree.Add | analizador/src/main/java/com/fmd/SemanticVisitor.java:81-83 | agregar on the current scope |
| Scopes.ScopeTree.EnterScope | analizador/src/main/java/com/fmd/SemanticVisitor.java:435-437 | a new child of the current scope becomes current |
| Scopes.ScopeTree.ExitScope | analizador/src/main/java/com/fmd/SemanticVisitor.java:439-443 | the parent becomes current; the root stays current |
| Scopes.ScopeTree.CollectAllScopesSymbols | analizador/src/main/java/com/fmd/SemanticVisitor.java:121-136 | the recursive collection returns getAllScopesSymbols of the scope |
| VariableRules.IntegerCheck | analizador/src/main/java/com/fmd/VariableVisitor.java:186-200 | an arithmetic operand is reported exactly when it is not integer |
| VariableRules.DivisionCheck | analizador/src/main/java/com/fmd/VariableVisitor.java:250-257 | division by zero is reported exactly for `/` whose right operand is written `0` |
| VariableRules.ArithStep | analizador/src/main/java/com/fmd/VariableVisitor.java:171-271 | a step is integer exactly when both sides are, else desconocido; one message per non-integer side, left first, then the division message last |
| VariableRules.LiteralType | analizador/src/main/java/com/fmd/VariableVisitor.java:309-328 | a literal's type is one of integer, string, boolean, null or desconocido |
| VariableRules.LiteralTypeOfWrittenValues | analizador/src/main/java/com/fmd/VariableVisitor.java:309-328 | digits type as integer, quoted text as string, true/false as boolean, null as null |
| VariableRules.VariableType | analizador/src/main/java/com/fmd/VariableVisitor.java:88-102 | a variable has its annotation, else its initializer's type, else desconocido; never null |
| VariableRules.ConstantType | analizador/src/main/java/com/fmd/VariableVisitor.java:35-55 | a constant has its annotation unless that is desconocido or absent, in which case it has the initializer's type; never null |
| VariableRules.NoMismatchMeansAgreement | analizador/src/main/java/com/fmd/VariableVisitor.java:35-99 | no mismatch is reported exactly when the initializer has the recorded type or is desconocido, for variables and for constants |
| LogicalRules.BooleanCheck | analizador/src/main/java/com/fmd/LogicalVisitor.java:30-44 | a logical operand is reported exactly when it is not boolean |
| LogicalRules.LogicStep | analizador/src/main/java/com/fmd/LogicalVisitor.java:15-107 | an or-step or and-step is boolean exactly when both sides are, else desconocido, with one message per non-boolean side |
| LogicalRules.LogicEqualityStep | analizador/src/main/java/com/fmd/LogicalVisitor.java:109-137 | equality is boolean; one error exactly when both types are known and differ |
| LogicalRules.LogicRelationalStep | analizador/src/main/java/com/fmd/LogicalVisitor.java:144-180 | an ordering is boolean; one message per non-integer side |
| LogicalRules.LogicEqualitySymmetric | analizador/src/main/java/com/fmd/LogicalVisitor.java:109-137 | the equality check reports the same for both orders of the operands |
| ComparisonRules.CompareEqualityStep | analizador/src/main/java/com/fmd/ComparisonVisitor.java:25-39 | an equality step is boolean; one error, naming both types, exactly when the sides are not equality-compatible |
| ComparisonRules.CompareRelationalStep | analizador/src/main/java/com/fmd/ComparisonVisitor.java:50-84 | an ordering is boolean; no error exactly when the sides are compatible and the left side is integer or string |
| ComparisonRules.CompatibilityFacts | analizador/src/main/java/com/fmd/ComparisonVisitor.java:90-116 | the model's two compatibilities are symmetric, and relational compatibility implies equality compatibility |
| ComparisonRules.EqualityReportsDistinctKnownTypes | analizador/src/main/java/com/fmd/ComparisonVisitor.java:25-43 | `==` reports exactly two different types neither of which is desconocido or "null", in either order |
| ComparisonRules.CompatibilityAgreesWithJava | analizador/src/main/java/com/fmd/ComparisonVisitor.java:90-116 | the model's compatibilities give the helpers' verdict wherever they return; the helpers throw exactly on a Java null left type not excused by the right side, so they are not symmetric |
| ComparisonRules.ThrowingInputsReported | analizador/src/main/java/com/fmd/ComparisonVisitor.java:25-84 | on the inputs where the helpers throw, the model's steps report a message naming "null" instead (or accept a Java null on both sides of `==`) |
| ComparisonRules.OrderabilityIsLeftSided | analizador/src/main/java/com/fmd/ComparisonVisitor.java:63-81 | a desconocido left side is always reported as unorderable, a desconocido right side never |
| ComparisonRules.VisitorsDisagree | analizador/src/main/java/com/fmd/ComparisonVisitor.java:90-124 | ComparisonVisitor accepts `null == integer` and string orderings, which LogicalVisitor reports |
| FunctionRules.ReturnedType | analizador/src/main/java/com/fmd/FunctionsVisitor.java:97-108 | a return yields its value's type, and void without a value; never null |
| FunctionRules.ReturnCheckAgreesWithCompatibility | analizador/src/main/java/com/fmd/FunctionsVisitor.java:169-180 | the same verdict as typesCompatible, except on an ERROR value, which typesCompatible accepts and only the return check reports |
| FunctionRules.ArrayTypeName | analizador/src/main/java/com/fmd/FunctionsVisitor.java:199-214 | the built name starts with the base type and adds two characters per dimension |
| FunctionRules.GetTypeFromContext | analizador/src/main/java/com/fmd/FunctionsVisitor.java:199-214 | OBJECT without an annotation, else the base type with one "[]" per child after it |
| FunctionRules.ArrayTypeMatchesText | analizador/src/main/java/com/fmd/FunctionsVisitor.java:199-214 | when each child after the base is a whole "[]", the built name is the annotation's text |
| FunctionRules.BracketTokensDoubleDimensions | analizador/src/main/java/com/fmd/FunctionsVisitor.java:204-211 | when each bracket is its own child, the built name has twice the dimensions of the annotation's text |
| ExprTypes.ChainRule | analizador/src/main/java/com/fmd/VariableVisitor.java:403-425 | VariableVisitor forwards exactly the or, and, equality and relational levels; every other level and visitor has a rule |
| ExprTypes.IdentType | analizador/src/main/java/com/fmd/VariableVisitor.java:145-169 | an undeclared name is one error of type ERROR; a declared non-member has its symbol's type; a class member used without an object is the member-without-object error and ERROR |
| ExprTypes.NewType | analizador/src/main/java/com/fmd/VariableVisitor.java:342-353 | `new C` reports nothing exactly when C resolves to a class, and then has type C; otherwise the missing-class error and desconocido |
| ExprTypes.FoldLinksStep | analizador/src/main/java/com/fmd/VariableVisitor.java:181-208 | one more link adds the operand's errors, then the step's messages, and takes the step's type |
| ExprTypes.ArgErrorsStep | analizador/src/main/java/com/fmd/FunctionsVisitor.java:150-163 | one more argument adds its own errors, then one error when it does not fit its parameter |
| ExprFacts.FoldArithmetic | analizador/src/main/java/com/fmd/VariableVisitor.java:181-208 | an arithmetic fold is integer exactly when the start and all operands are, else desconocido |
| ExprFacts.ArithmeticLastLink | analizador/src/main/java/com/fmd/VariableVisitor.java:202-207 | the last step is integer exactly when the fold before it and its operand are |
| ExprFacts.ArithmeticChainType | analizador/src/main/java/com/fmd/VariableVisitor.java:171-271 | an arithmetic chain is integer exactly when every operand is, whichever visitor reaches it |
| ExprFacts.FoldLogic | analizador/src/main/java/com/fmd/LogicalVisitor.java:15-107 | a logical fold is boolean exactly when the start and all operands are, else desconocido |
| ExprFacts.LogicLastLink | analizador/src/main/java/com/fmd/LogicalVisitor.java:46-52 | the last step is boolean exactly when the fold before it and its operand are |
| ExprFacts.LogicalChainType | analizador/src/main/java/com/fmd/LogicalVisitor.java:15-107 | under LogicalVisitor an or-chain or and-chain is boolean exactly when every operand is |
| ExprFacts.LogicalChainErrorBound | analizador/src/main/java/com/fmd/LogicalVisitor.java:30-44 | each logical step adds at most two errors of its own |
| ExprFacts.ComparisonChainType | analizador/src/main/java/com/fmd/ComparisonVisitor.java:15-84 | equality and relational chains are boolean; under ComparisonVisitor an or-chain or and-chain has its last operand's type |
| ExprFacts.VariableForwarding | analizador/src/main/java/com/fmd/VariableVisitor.java:403-439 | VariableVisitor types the upper levels and `?:` as their first operand; the levels below relational are typed the same by all three visitors |
| ExprFacts.ArgErrorsCount | analizador/src/main/java/com/fmd/FunctionsVisitor.java:150-163 | the argument errors are the arguments' own plus one per ill-typed argument |
| ExprFacts.CallChecks | analizador/src/main/java/com/fmd/FunctionsVisitor.java:120-166 | an undeclared callee, a non-function or a wrong arity gives exactly one error and ERROR; otherwise the return type with one error per ill-typed argument |
| ExprFacts.UnaryOperators | analizador/src/main/java/com/fmd/VariableVisitor.java:273-307 | `-e` is integer and `!e` boolean; each adds nothing to e's errors exactly when e already has that type, and at most one error |
| ExprFacts.UnaryTwice | analizador/src/main/java/com/fmd/VariableVisitor.java:273-307 | a doubled unary operator has the type and errors of the single one |
| ExprFacts.AssignmentExpression | analizador/src/main/java/com/fmd/VariableVisitor.java:329-336 | `x = e` as an expression has e's type; its errors are the target name's lookup error, if any, then e's |
| ExprFacts.AssignmentChainType | analizador/src/main/java/com/fmd/VariableVisitor.java:329-336 | `x = y = e` has e's type and the errors of both targets, then e's |
| ExprFacts.TypeOfSameLookups | analizador/src/main/java/com/fmd/SemanticVisitor.java:85-91 | an expression's type and errors depend only on what its names look up to |
| ExprVisitors.CheckInteger | analizador/src/main/java/com/fmd/VariableVisitor.java:186-200 | appends the integer-operand message exactly when the rule gives it |
| ExprVisitors.CheckDivision | analizador/src/main/java/com/fmd/VariableVisitor.java:250-257 | appends the division-by-zero message exactly when the rule gives it |
| ExprVisitors.CheckBoolean | analizador/src/main/java/com/fmd/LogicalVisitor.java:30-44 | appends the boolean-operand message exactly when the rule gives it |
| ExprVisitors.ArithmeticStep | analizador/src/main/java/com/fmd/VariableVisitor.java:182-207 | the loop body returns the step's type and appends its messages |
| ExprVisitors.LogicStep | analizador/src/main/java/com/fmd/LogicalVisitor.java:25-52 | the loop body returns the step's type and appends its messages |
| ExprVisitors.LogicRelationalStep | analizador/src/main/java/com/fmd/LogicalVisitor.java:154-177 | the relational check returns boolean and appends its messages |
| ExprVisitors.VisitExpr | analizador/src/main/java/com/fmd/VariableVisitor.java:397-439 | visiting an expression returns TypeOf's type and appends exactly TypeOf's errors |
| ExprVisitors.VisitTernary | analizador/src/main/java/com/fmd/VariableVisitor.java:403-405 | as VisitExpr, for `?:` |
| ExprVisitors.VisitUnary | analizador/src/main/java/com/fmd/VariableVisitor.java:273-307 | as VisitExpr, for unary operators, under every visitor |
| ExprVisitors.VisitIdent | analizador/src/main/java/com/fmd/VariableVisitor.java:145-169 | returns IdentType's type and appends its errors |
| ExprVisitors.VisitNew | analizador/src/main/java/com/fmd/VariableVisitor.java:342-353 | returns NewType's type and appends its errors |
| ExprVisitors.VisitChain | analizador/src/main/java/com/fmd/VariableVisitor.java:171-211 | a chain returns the fold's type and appends the fold's errors |
| ExprVisitors.VisitLinks | analizador/src/main/java/com/fmd/VariableVisitor.java:181-208 | the loop over the links ends with the fold's type and errors |
| ExprVisitors.VisitLink | analizador/src/main/java/com/fmd/VariableVisitor.java:182-207 | one iteration extends the fold of the links before it by one link |
| ExprVisitors.LinkStep | analizador/src/main/java/com/fmd/VariableVisitor.java:182-207 | the operand's errors, then the step's messages, are appended |
| ExprVisitors.VisitCall | analizador/src/main/java/com/fmd/FunctionsVisitor.java:120-166 | returns CallType's type and appends exactly its errors |
| ExprVisitors.VisitArguments | analizador/src/main/java/com/fmd/FunctionsVisitor.java:150-163 | the argument loop appends exactly ArgErrors |
| ExprVisitors.CheckArgument | analizador/src/main/java/com/fmd/FunctionsVisitor.java:151-162 | one iteration extends ArgErrors by one argument |
| WalkerRules.ContinueStricterThanBreak | analizador/src/main/java/com/fmd/SemanticVisitor.java:411-425 | a continue is misplaced wherever a break is, and additionally exactly in a switch case outside every loop |
| WalkerRules.ConditionErrorsShape | analizador/src/main/java/com/fmd/SemanticVisitor.java:161-170 | a condition contributes its own errors, then one error at the statement exactly when it is not boolean |
| WalkerRules.ElementType | analizador/src/main/java/com/fmd/SemanticVisitor.java:317-325 | the element type is the array type without its last "[]" |
| WalkerRules.ElementOfArrayType | analizador/src/main/java/com/fmd/SemanticVisitor.java:317-325 | iterating over d+1 dimensions binds elements of d dimensions |
| WalkerRules.ScalarTypesNotIterable | analizador/src/main/java/com/fmd/SemanticVisitor.java:317-325 | no built-in type name can be iterated |
| WalkerRules.ParameterArena | analizador/src/main/java/com/fmd/FunctionsVisitor.java:47-62 | the function's scope is a new child of the declaring scope, holding the parameters |
| WalkerRules.SealedLookups | analizador/src/main/java/com/fmd/SemanticVisitor.java:151-158 | after a block every lookup from an older scope finds what it found before |
| WalkerRules.EnteredThenExtended | analizador/src/main/java/com/fmd/SemanticVisitor.java:151-158 | entering a scope, declaring only in it and leaving it leaves every older scope as it was |
| WalkerRules.FunctionArenaSealed | analizador/src/main/java/com/fmd/FunctionsVisitor.java:47-85 | a function body leaves every scope that existed before it as it was |
| ClassRules.FindParam | analizador/src/main/java/com/fmd/ClassesListener.java:176-179 | the first parameter with the name, and none exactly when no parameter has it |
| ClassRules.ConstructorStep | analizador/src/main/java/com/fmd/ClassesListener.java:156-224 | a constructor statement initializes only a member of the class |
| ClassRules.ConstructorStepRejects | analizador/src/main/java/com/fmd/ClassesListener.java:156-224 | a non-assignment, and an assignment without a member target, are rejected with their messages; only `o.m = e` can be accepted |
| ClassRules.CopyStep | analizador/src/main/java/com/fmd/ClassesListener.java:161-209 | accepted exactly when the left side is "this." and a member, and the right side names a parameter of the member's type or of unknown type |
| ClassRules.Outcomes | analizador/src/main/java/com/fmd/ClassesListener.java:156-225 | one outcome per statement of the body; every initialized member is a member |
| ClassRules.NoRejectionErrors | analizador/src/main/java/com/fmd/ClassesListener.java:155-226 | the constructor reports nothing exactly when every statement is accepted |
| ClassRules.InitializedMembersMeans | analizador/src/main/java/com/fmd/ClassesListener.java:207-209 | a member is marked initialized exactly when some statement initializes it |
| ClassRules.RejectionCount | analizador/src/main/java/com/fmd/ClassesListener.java:155-226 | every statement is reported once or initializes a member, never both |
| ClassRules.ThisCopyText | analizador/src/main/java/com/fmd/ClassesListener.java:157-163 | the text of `this.m = p` mentions "this.", splits into "this.m" and p |
| ClassRules.CopyOfParameter | analizador/src/main/java/com/fmd/ClassesListener.java:174-209 | "this.m" = p is accepted exactly when p is a parameter fitting member m |
| ClassRules.ThisMemberFromParameter | analizador/src/main/java/com/fmd/ClassesListener.java:157-209 | the statement `this.m = p` initializes m exactly when p is a parameter fitting m |
| ClassRules.CopyingConstructorAccepted | analizador/src/main/java/com/fmd/ClassesListener.java:155-226 | a constructor made only of such copies reports nothing and initializes exactly the members it names |
| Analyzer.ParametersForStep | analizador/src/main/java/com/fmd/FunctionsVisitor.java:52-62 | one more matching parameter symbol extends the parameter list and its types by one |
| Analyzer.SemanticVisitor.constructor | analizador/src/main/java/com/fmd/SemanticVisitor.java:19-37 | one root scope, no errors, depths zero, no current function or class |
| Analyzer.WhileErrors | analizador/src/main/java/com/fmd/SemanticVisitor.java:179-193 | a declaration-free while's errors are its condition's, then its body's one loop level deeper |
| Analyzer.DoWhileErrors | analizador/src/main/java/com/fmd/SemanticVisitor.java:389-407 | a declaration-free do-while's errors are its body's one loop level deeper, then its condition's |
| Analyzer.ForStmtErrors | analizador/src/main/java/com/fmd/SemanticVisitor.java:272-306 | a declaration-free for's errors are ForErrors one loop level deeper |
| Analyzer.SwitchErrors | analizador/src/main/java/com/fmd/SemanticVisitor.java:347-385 | a declaration-free switch's errors are the subject's, each case's against the subject's type, then the default's |
| Analyzer.TryCatchErrors | analizador/src/main/java/com/fmd/SemanticVisitor.java:241-269 | a declaration-free try-catch's errors are the try block's, then the catch block's |
| Analyzer.StmtErrorsSameLookups | analizador/src/main/java/com/fmd/SemanticVisitor.java:151-158 | a declaration-free statement's errors depend only on what names look up to, so a sealed block leaves them as they were |
| Analyzer.ForInitInNewScope | analizador/src/main/java/com/fmd/SemanticVisitor.java:272-280 | a for initializer in the loop's new scope reports what it would in the enclosing scope, except that a declaration is never a duplicate there |
| Analyzer.SemanticVisitor.VisitStatements | analizador/src/main/java/com/fmd/SemanticVisitor.java:142-158 | statements in order: with none declaring, exactly StmtsErrors and every lookup kept |
| Analyzer.SemanticVisitor.VisitStmt | analizador/src/main/java/com/fmd/SemanticVisitor.java:142-557 | a declaration-free statement appends exactly StmtErrors and keeps every lookup |
| Analyzer.SemanticVisitor.VisitSimpleStmt | analizador/src/main/java/com/fmd/SemanticVisitor.java:197-557 | a declaration-free simple statement appends exactly StmtErrors |
| Analyzer.SemanticVisitor.VisitLeaf | analizador/src/main/java/com/fmd/SemanticVisitor.java:411-557 | break, continue, an expression, print, return and assignment append exactly StmtErrors |
| Analyzer.SemanticVisitor.VisitCompoundStmt | analizador/src/main/java/com/fmd/SemanticVisitor.java:151-407 | a declaration-free compound statement appends exactly StmtErrors |
| Analyzer.SemanticVisitor.VisitBranches | analizador/src/main/java/com/fmd/SemanticVisitor.java:163-175 | the then block, then the else block if any: exactly their errors when neither declares |
| Analyzer.SemanticVisitor.DeeperConditionThenBlock | analizador/src/main/java/com/fmd/SemanticVisitor.java:179-193 | one loop level deeper for the block, restored after; the condition's errors then the block's |
| Analyzer.SemanticVisitor.DeeperBlockThenCondition | analizador/src/main/java/com/fmd/SemanticVisitor.java:389-407 | one loop level deeper for the block, restored after; the block's errors then the condition's |
| Analyzer.SemanticVisitor.DeeperFor | analizador/src/main/java/com/fmd/SemanticVisitor.java:272-306 | one loop level deeper for the whole loop, restored after; the initializer's and header's errors first |
| Analyzer.SemanticVisitor.ForInside | analizador/src/main/java/com/fmd/SemanticVisitor.java:276-303 | inside the loop's scope: the initializer's and header's errors first; a declaration-free loop appends exactly ForErrors |
| Analyzer.SemanticVisitor.ForHeader | analizador/src/main/java/com/fmd/SemanticVisitor.java:276-300 | exactly the initializer's errors, then the condition check on the first written expression, then the update's errors |
| Analyzer.SemanticVisitor.ForInitializer | analizador/src/main/java/com/fmd/SemanticVisitor.java:276-281 | exactly ForInitErrors: the declaration's or the assignment's errors, or none |
| Analyzer.SemanticVisitor.ForChecks | analizador/src/main/java/com/fmd/SemanticVisitor.java:283-298 | exactly ForCheckErrors |
| Analyzer.SemanticVisitor.ForeachInside | analizador/src/main/java/com/fmd/SemanticVisitor.java:313-340 | inside the loop's scope, the binding's errors come first |
| Analyzer.SemanticVisitor.SubjectThenCases | analizador/src/main/java/com/fmd/SemanticVisitor.java:347-359 | the subject's errors first; a declaration-free switch then appends exactly the cases' and the default's errors |
| Analyzer.SemanticVisitor.VisitCases | analizador/src/main/java/com/fmd/SemanticVisitor.java:351-357 | with no case declaring, exactly the cases' errors then the default's |
| Analyzer.SemanticVisitor.VisitCaseList | analizador/src/main/java/com/fmd/SemanticVisitor.java:351-355 | the case loop appends exactly CasesErrors when no case declares |
| Analyzer.SemanticVisitor.NextCase | analizador/src/main/java/com/fmd/SemanticVisitor.java:351-355 | one iteration extends CasesErrors by one case |
| Analyzer.SemanticVisitor.OneCase | analizador/src/main/java/com/fmd/SemanticVisitor.java:352-354 | one case appends exactly its CaseErrors |
| Analyzer.SemanticVisitor.CheckThenBody | analizador/src/main/java/com/fmd/SemanticVisitor.java:361-378 | the case check's errors, then the body's one switch level deeper |
| Analyzer.SemanticVisitor.VisitCaseBody | analizador/src/main/java/com/fmd/SemanticVisitor.java:371-376 | the case body one switch level deeper appends exactly its statements' errors |
| Analyzer.SemanticVisitor.VisitDefault | analizador/src/main/java/com/fmd/SemanticVisitor.java:380-386 | the default body one switch level deeper appends exactly its statements' errors |
| Analyzer.SemanticVisitor.TryThenCatch | analizador/src/main/java/com/fmd/SemanticVisitor.java:241-269 | the try block's errors, then the catch block's, and every existing scope kept |
| Analyzer.SemanticVisitor.VisitHandler | analizador/src/main/java/com/fmd/SemanticVisitor.java:248-266 | an unnamed declaration-free handler appends exactly its body's errors |
| Analyzer.SemanticVisitor.ScopedBlock | analizador/src/main/java/com/fmd/SemanticVisitor.java:243-245 | a block in its own scope: every existing scope kept, and exactly its statements' errors when none declares |
| Analyzer.SemanticVisitor.NamedCatch | analizador/src/main/java/com/fmd/SemanticVisitor.java:250-264 | the exception variable is declared only in the catch's own scope, which is left: every existing scope kept |
| Analyzer.SemanticVisitor.FunctionBody | analizador/src/main/java/com/fmd/FunctionsVisitor.java:78-79 | the body leaves every existing scope as it was |
| Analyzer.SemanticVisitor.DeclareNextParameter | analizador/src/main/java/com/fmd/FunctionsVisitor.java:53-61 | one more parameter matches its declaration and is declared in the function scope |
| Analyzer.SemanticVisitor.SetLoopDepth | analizador/src/main/java/com/fmd/SemanticVisitor.java:179-193 | the loop depth is set as given |
| Analyzer.SemanticVisitor.SetSwitchDepth | analizador/src/main/java/com/fmd/SemanticVisitor.java:347-386 | the switch depth is set as given |
| Analyzer.SemanticVisitor.VisitProgram | analizador/src/main/java/com/fmd/SemanticVisitor.java:142-147 | a program of declaration-free statements appends exactly StmtsErrors of its statements, in order, and leaves every lookup as it was |
| Analyzer.SemanticVisitor.VisitBlock | analizador/src/main/java/com/fmd/SemanticVisitor.java:151-158 | a block leaves every existing scope as it was; a declaration-free block appends exactly its statements' errors |
| Analyzer.SemanticVisitor.VisitBreak | analizador/src/main/java/com/fmd/SemanticVisitor.java:411-416 | one error exactly outside every loop and switch |
| Analyzer.SemanticVisitor.VisitContinue | analizador/src/main/java/com/fmd/SemanticVisitor.java:420-425 | one error exactly outside every loop |
| Analyzer.SemanticVisitor.VisitExpressionStatement | analizador/src/main/java/com/fmd/SemanticVisitor.java:541-546 | exactly ComparisonVisitor's errors for the expression |
| Analyzer.SemanticVisitor.VisitPrint | analizador/src/main/java/com/fmd/SemanticVisitor.java:549-557 | exactly ComparisonVisitor's errors, and the print flag is reset |
| Analyzer.SemanticVisitor.VisitReturn | analizador/src/main/java/com/fmd/FunctionsVisitor.java:90-116 | outside a function one error; inside, the value's errors and one error exactly when its type is not the function's |
| Analyzer.SemanticVisitor.CheckReturned | analizador/src/main/java/com/fmd/FunctionsVisitor.java:97-113 | the value's errors, then one error exactly when the returned type differs from the expected |
| Analyzer.SemanticVisitor.CheckCondition | analizador/src/main/java/com/fmd/SemanticVisitor.java:161-170 | appends exactly the condition's errors |
| Analyzer.SemanticVisitor.VisitIf | analizador/src/main/java/com/fmd/SemanticVisitor.java:161-176 | the condition's errors come first; a declaration-free if appends exactly the condition's, the then block's and the else block's errors |
| Analyzer.SemanticVisitor.VisitWhile | analizador/src/main/java/com/fmd/SemanticVisitor.java:179-193 | the condition's errors come first; a declaration-free loop appends exactly those and its body's errors one loop level deeper |
| Analyzer.SemanticVisitor.ConditionThenBlock | analizador/src/main/java/com/fmd/SemanticVisitor.java:161-193 | the condition's errors come first; with a declaration-free block, exactly the condition's errors then the block's |
| Analyzer.SemanticVisitor.VisitDoWhile | analizador/src/main/java/com/fmd/SemanticVisitor.java:389-407 | the condition's errors, in the state after the body, come last; a declaration-free loop appends exactly its body's errors one loop level deeper, then the condition's |
| Analyzer.SemanticVisitor.BlockThenCondition | analizador/src/main/java/com/fmd/SemanticVisitor.java:389-407 | the condition's errors come last; with a declaration-free block, exactly the block's errors then the condition's |
| Analyzer.SemanticVisitor.VisitVarDecl | analizador/src/main/java/com/fmd/VariableVisitor.java:64-116 | exactly VarDeclErrors: a duplicate member or local is the only error, otherwise the initializer's errors and mismatch; the variable declared in the scope or registered as a member, with its recorded type |
| Analyzer.SemanticVisitor.DeclareLocalVariable | analizador/src/main/java/com/fmd/VariableVisitor.java:64-115 | a duplicate is one error and declares nothing; otherwise the initializer's errors, a mismatch error, and a mutable variable of the recorded type declared |
| Analyzer.SemanticVisitor.DeclareVariable | analizador/src/main/java/com/fmd/VariableVisitor.java:88-111 | the initializer's errors, then a mismatch error, and the variable declared in the current scope |
| Analyzer.SemanticVisitor.DeclareMemberVariable | analizador/src/main/java/com/fmd/VariableVisitor.java:69-113 | a duplicate member is one error; otherwise the initializer's errors, a mismatch error, and a new mutable member of the recorded type replacing nothing; no scope changes |
| Analyzer.SemanticVisitor.InitializerType | analizador/src/main/java/com/fmd/VariableVisitor.java:89-100 | the initializer's type and errors, then a mismatch error |
| Analyzer.SemanticVisitor.DeclareNew | analizador/src/main/java/com/fmd/VariableVisitor.java:104-111 | a new symbol with the given fields, declared in the current scope only |
| Analyzer.SemanticVisitor.Declare | analizador/src/main/java/com/fmd/SemanticVisitor.java:81-83 | agregar on the current scope, which only that scope sees |
| Analyzer.SemanticVisitor.VisitConstDecl | analizador/src/main/java/com/fmd/VariableVisitor.java:16-61 | a missing initializer is reported first; a duplicate is reported and nothing declared; otherwise the initializer's errors, a mismatch error, and an immutable constant |
| Analyzer.SemanticVisitor.ReportUninitialized | analizador/src/main/java/com/fmd/VariableVisitor.java:20-25 | one error exactly when there is no initializer |
| Analyzer.SemanticVisitor.DeclareNewConstant | analizador/src/main/java/com/fmd/VariableVisitor.java:27-60 | a duplicate is reported and nothing declared; otherwise the constant is declared |
| Analyzer.SemanticVisitor.DeclareConstant | analizador/src/main/java/com/fmd/VariableVisitor.java:35-60 | the initializer's errors, a mismatch error, and an immutable constant of the recorded type |
| Analyzer.SemanticVisitor.ConstantInitializerType | analizador/src/main/java/com/fmd/VariableVisitor.java:35-50 | the initializer's type and errors, then a mismatch error |
| Analyzer.SemanticVisitor.VisitAssignment | analizador/src/main/java/com/fmd/VariableVisitor.java:118-142 | undeclared: one error and desconocido; a constant: one error and its type; otherwise the value's errors, a mismatch error, and the value's type |
| Analyzer.SemanticVisitor.CheckAssigned | analizador/src/main/java/com/fmd/VariableVisitor.java:133-141 | the value's errors, then one error exactly when its known type differs from the target's |
| Analyzer.SemanticVisitor.VisitFor | analizador/src/main/java/com/fmd/SemanticVisitor.java:272-306 | the initializer's errors in the loop's own scope, then the header checks (the first written expression as condition, then the update), come first; a declaration-free loop appends exactly ForErrors; nothing declared in the loop is visible after it |
| Analyzer.SemanticVisitor.ForScope | analizador/src/main/java/com/fmd/SemanticVisitor.java:274-304 | the loop's own scope is entered and left; the initializer's and header's errors come first, and a declaration-free loop appends exactly ForErrors |
| Analyzer.SemanticVisitor.VisitForeach | analizador/src/main/java/com/fmd/SemanticVisitor.java:309-344 | the iterable's errors, then one error exactly when its type is not an array type, come first; nothing declared in the loop is visible after it |
| Analyzer.SemanticVisitor.ForeachScope | analizador/src/main/java/com/fmd/SemanticVisitor.java:311-342 | the loop's own scope is entered and left, and the binding's errors come first |
| Analyzer.SemanticVisitor.ForeachBinding | analizador/src/main/java/com/fmd/SemanticVisitor.java:313-336 | a non-array iterable is its errors plus one error, with nothing declared; an array binds a mutable variable of the element type |
| Analyzer.SemanticVisitor.VisitSwitch | analizador/src/main/java/com/fmd/SemanticVisitor.java:347-359 | the subject's errors come first; a declaration-free switch appends exactly the subject's, each case's and the default's errors |
| Analyzer.SemanticVisitor.SwitchSubject | analizador/src/main/java/com/fmd/SemanticVisitor.java:348-350 | the subject's type and errors |
| Analyzer.SemanticVisitor.VisitCase | analizador/src/main/java/com/fmd/SemanticVisitor.java:361-378 | the case's errors and type check come first; with a declaration-free body, exactly those then the body's errors one switch level deeper |
| Analyzer.SemanticVisitor.CheckCase | analizador/src/main/java/com/fmd/SemanticVisitor.java:363-370 | the case's errors, then one error exactly when its type differs from the subject's |
| Analyzer.SemanticVisitor.VisitTryCatch | analizador/src/main/java/com/fmd/SemanticVisitor.java:241-269 | neither block's declarations are visible after the statement; a declaration-free statement with an unnamed handler appends exactly the try block's then the catch block's errors |
| Analyzer.SemanticVisitor.VisitCatchBlock | analizador/src/main/java/com/fmd/SemanticVisitor.java:249-265 | the catch block leaves every existing scope as it was; without an exception name and with a declaration-free body it appends exactly the body's errors |
| Analyzer.SemanticVisitor.VisitFunction | analizador/src/main/java/com/fmd/FunctionsVisitor.java:21-86 | a duplicate is one error and ERROR; otherwise an immutable function symbol with its parameters, nesting and enclosing name, its body checked in a child scope holding the parameters |
| Analyzer.SemanticVisitor.DefineFunction | analizador/src/main/java/com/fmd/FunctionsVisitor.java:31-85 | the function symbol's fields, its parameters, and a body checked in a child scope that leaves every older scope as it was |
| Analyzer.SemanticVisitor.InFunctionScope | analizador/src/main/java/com/fmd/FunctionsVisitor.java:46-85 | the previous function and scope are restored, and older scopes are unchanged |
| Analyzer.SemanticVisitor.NewFunctionSymbol | analizador/src/main/java/com/fmd/FunctionsVisitor.java:31-44 | an immutable function symbol, nested exactly inside another function, declared in the current scope |
| Analyzer.SemanticVisitor.FunctionScope | analizador/src/main/java/com/fmd/FunctionsVisitor.java:52-79 | the parameters are declared, a nested function records its captures, then the body |
| Analyzer.SemanticVisitor.FunctionHeader | analizador/src/main/java/com/fmd/FunctionsVisitor.java:52-76 | the parameters declared in order, then the captured names of a nested function |
| Analyzer.SemanticVisitor.DeclareParameters | analizador/src/main/java/com/fmd/FunctionsVisitor.java:52-62 | one immutable parameter per declaration, in order, with the built type, declared in the current scope |
| Analyzer.SemanticVisitor.DeclareParameter | analizador/src/main/java/com/fmd/FunctionsVisitor.java:53-61 | a fresh immutable variable appended to the function's parameters and declared in the current scope |
| Analyzer.SemanticVisitor.RecordCaptures | analizador/src/main/java/com/fmd/FunctionsVisitor.java:64-76 | the captured names are recorded, and every one is visible from the enclosing scope, so the missing-capture error never fires |
| Analyzer.SemanticVisitor.VisitClass | analizador/src/main/java/com/fmd/SemanticVisitor.java:222-238 | a class symbol without type is declared; its member map holds exactly the registering members, each new and recording the class; no current class afterwards |
| Analyzer.SemanticVisitor.EnterClassDeclaration | analizador/src/main/java/com/fmd/ClassesListener.java:18-39 | the class symbol is declared, a child scope entered, and the class becomes current |
| Analyzer.SemanticVisitor.NewClass | analizador/src/main/java/com/fmd/ClassesListener.java:19-34 | a mutable class symbol without type, with the superclass as written and no members |
| Analyzer.SemanticVisitor.ExitClassDeclaration | analizador/src/main/java/com/fmd/ClassesListener.java:42-45 | back to the parent scope, with no current class |
| Analyzer.SemanticVisitor.VisitMembers | analizador/src/main/java/com/fmd/SemanticVisitor.java:225-233 | the member map gains exactly the registering members' names, each new and recording the class |
| Analyzer.SemanticVisitor.VisitMember | analizador/src/main/java/com/fmd/SemanticVisitor.java:226-232 | one member adds its name exactly when it registers; it appends exactly the errors its listener method gives: the constructor's rejections, VarDeclErrors of a field, or ClassConstErrors of a constant |
| Analyzer.SemanticVisitor.EnterVariableDeclaration | analizador/src/main/java/com/fmd/ClassesListener.java:48-117 | a duplicate member is one error; otherwise the initializer's errors, a mismatch error, and a mutable member initialized exactly when it has an initializer |
| Analyzer.SemanticVisitor.EnterConstantDeclaration | analizador/src/main/java/com/fmd/ClassesListener.java:242-310 | a duplicate, then a missing initializer, is one error; otherwise the initializer's errors, a mismatch error, and a new member with the annotation's or the initializer's type |
| Analyzer.SemanticVisitor.DeclareClassConstant | analizador/src/main/java/com/fmd/ClassesListener.java:277-309 | the constant's checks, and a new member of the class |
| Analyzer.SemanticVisitor.RegisterMember | analizador/src/main/java/com/fmd/ClassesListener.java:96-115 | a new mutable member replaces any member of its name and is declared in the class scope |
| Analyzer.SemanticVisitor.ListenerConstantInit | analizador/src/main/java/com/fmd/ClassesListener.java:277-290 | the initializer's type and errors, then a mismatch error |
| Analyzer.SemanticVisitor.EnterFunctionDeclaration | analizador/src/main/java/com/fmd/ClassesListener.java:123-239 | a method symbol with its written types replaces any member of its name; a "constructor" is checked against the members so far: exactly the rejection errors, and exactly the copied members marked initialized |
| Analyzer.SemanticVisitor.DeclareMethod | analizador/src/main/java/com/fmd/ClassesListener.java:130-237 | the method's symbol and parameters, registered as a member |
| Analyzer.SemanticVisitor.ListenerFunctionSymbol | analizador/src/main/java/com/fmd/ClassesListener.java:130-152 | a mutable function symbol with the written return type and its parameters |
| Analyzer.SemanticVisitor.RegisterMethod | analizador/src/main/java/com/fmd/ClassesListener.java:228-237 | the method records its class and whether it is the constructor, and replaces any member of its name |
| Analyzer.SemanticVisitor.ListenerParameters | analizador/src/main/java/com/fmd/ClassesListener.java:144-152 | one mutable parameter per declaration, in order, with the written type, declared nowhere |
| Analyzer.SemanticVisitor.ListenerParameter | analizador/src/main/java/com/fmd/ClassesListener.java:146-151 | a fresh mutable variable appended to the method's parameters |
| Analyzer.SemanticVisitor.CheckConstructor | analizador/src/main/java/com/fmd/ClassesListener.java:155-226 | only a method named "constructor" is checked: the rejection errors are appended, and exactly the copied members become initialized |
| Analyzer.SemanticVisitor.CheckConstructorBody | analizador/src/main/java/com/fmd/ClassesListener.java:156-225 | each rejected statement is reported at its position; each accepted one marks its member initialized |
| Analyzer.SemanticVisitor.AssignmentTarget | analizador/src/main/java/com/fmd/ClassesListener.java:314-341 | a "this." name finds the current class's member, any other name the nearest declaration |
| Analyzer.SemanticVisitor.EnterAssignment | analizador/src/main/java/com/fmd/ClassesListener.java:312-369 | a missing target is one error; otherwise a constant error, the value's errors and a mismatch error, and a "this." target marked initialized; no other member changes |
| Analyzer.SemanticVisitor.ReportWrite | analizador/src/main/java/com/fmd/ClassesListener.java:344-359 | the constant error, then the value's errors, then the mismatch error |
| Sexpr.AtomLength | analizador/additions/AstTreeGenerator.py:14 | the longest run of atom characters at the start |
| Sexpr.Tokenize | analizador/additions/AstTreeGenerator.py:14 | every token is "(", ")" or an atom |
| Sexpr.TokensKeepEveryOtherChar | analizador/additions/AstTreeGenerator.py:14 | the tokens spell out the text without its whitespace |
| Sexpr.TokenizeSpaced | analizador/additions/AstTreeGenerator.py:14 | tokens written with spaces tokenize back to themselves |
| Sexpr.ParseAt | analizador/additions/AstTreeGenerator.py:17-31 | a successful read consumes at least one token and stays within the tokens |
| Sexpr.ParseChildren | analizador/additions/AstTreeGenerator.py:23-27 | the children loop consumes at least the closing ")" |
| Sexpr.ParseNode | analizador/additions/AstTreeGenerator.py:17-31 | the loop-based reader agrees with ParseAt |
| Sexpr.ParseSexpr | analizador/additions/AstTreeGenerator.py:13-33 | tokenize, then the node read from the first token |
| Sexpr.AtomIsLeaf | analizador/additions/AstTreeGenerator.py:28-31 | an atom is a leaf that consumes one token |
| Sexpr.ListConsumesAtLeastThree | analizador/additions/AstTreeGenerator.py:18-27 | "(" takes the next token as the name and consumes at least three tokens |
| Sexpr.ParenthesizedAtom | analizador/additions/AstTreeGenerator.py:17-31 | "(x)" and "x" read as the same leaf |
| Sexpr.ReadDump | analizador/additions/AstTreeGenerator.py:17-31 | a dumped node reads back as itself and stops right after its dump |
| Sexpr.ReadDumpAll | analizador/additions/AstTreeGenerator.py:23-27 | dumped children followed by ")" read back as themselves |
| Sexpr.DumpRoundTrip | analizador/additions/AstTreeGenerator.py:13-33 | a well-named tree, dumped with spaces and read again, is the tree |

## Left out

- Reading files, printing the symbol table (`imprimirScopes`), the graphviz output of the tree generator and the program's entry points: they are I/O.
- The parser is not part of this model. The walk starts from the `Syntax` datatypes, with the text of each node (`getText`) rebuilt from them.
- Property access, indexing and array literal expressions are not in the expression datatype. `this` is, and is typed as a Java null type (`NO_TYPE`), as the visitors leave it. An assignment used as an expression (`AssignExpr`) is typed by the default child visit: the target's lookup errors, then the value's type and errors.
- `lastSymbol` and `setLastSymbol` are not modelled: nothing in the core reads them.
- The `inPrint` flag is set and reset as in the source, but no visitor reads it.
- Symbol fields used only for code generation are not modelled: offsets, the parameter count field, the local size and the TAC names.
- `setType` is never called by the core and is not modelled; a symbol's type is a constant.
- The Java objects of `Entorno` are linked by reference. The model keeps them in an arena, a sequence of scopes indexed by number. It has the same parent and child shape, so aliasing of scopes is not modelled.
- A null value the source dereferences stops the Java checker. The model gives the offending value an explicit type instead. This covers:
  - a null type of a switch subject or a foreach iterable;
  - a null member type in the constructor check;
  - a null symbol type in an assignment;
  - a null left type in LogicalVisitor's equality check (LogicalVisitor.java:124, `this == x`). `tipoIzq.equals` throws there; LogicalRules.LogicEqualityStep instead reports a mismatch naming "null".
  - a null left type in ComparisonVisitor's compatibility helpers (ComparisonVisitor.java:102 and 115). `tipo1.equals(tipo2)` throws unless the right side is desconocido, or "null" for `==`. It is reachable: `this` and a class name have a Java null type, so `print(this == 1);` in a method or `print(A < 1);` stops the checker. ComparisonRules.JavaEqualityCompatible and JavaRelationalCompatible model the helpers with the exception; the members below use the model's steps, which report instead (ComparisonRules.ThrowingInputsReported).

  The model's `NO_TYPE` rendering as "null" stands in for the first two.
- ComparisonRules.CompareEqualityStep: on a Java null left type that ComparisonVisitor.java:102 dereferences, it reports a mismatch naming "null" (or nothing when the right type is a Java null too), where the source throws.
- ComparisonRules.CompareRelationalStep: on a Java null left type, which ComparisonVisitor.java:115 dereferences unless the right side is desconocido, it reports a message naming "null" where the source throws.
- ComparisonRules.EqualityReportsDistinctKnownTypes: "in either order" holds for the model's step; the source throws for a Java null left type and reports for a Java null right type (ComparisonRules.CompatibilityAgreesWithJava).
- ComparisonRules.CompatibilityFacts: the symmetry is the model's; the source's helpers throw for a Java null left type and return false for the swapped pair (ComparisonRules.CompatibilityAgreesWithJava).
- ExprFacts.ComparisonChainType: an equality or relational chain whose first operand has a Java null type, and whose next operand is not excused, throws in the source; the model types it boolean with a reported message. Only the first step can throw, since every later left side is "boolean".
- The class listener's branches for declarations outside a class are not modelled. The semantic walk hands it only class members, so those branches never run.
- `getCurrentClass` of SemanticVisitor reads the listener's current class. The model keeps that class as one field, `currentClass`.
- Analyzer.SemanticVisitor.EnterAssignment: the walk never calls the listener's `enterAssignment`, so it is modelled as an operation on its own. An assignment's target is an `Identifier` token, which holds no '.'. The "this." branches are therefore modelled as written but cannot fire from parsed input.
- Analyzer.SemanticVisitor.RecordCaptures does not repeat the check that reports a captured name missing from outer scopes. Its ensures proves that every recorded name is visible from the enclosing scope, so that error is never reported.
- Analyzer.SemanticVisitor.ForHeader: without a condition, the source checks the first expression written, which is then the update. The model does the same (`ForCheckErrors`), and states the header's errors exactly.
- Analyzer.SemanticVisitor.VisitAssignment types `expression(0)`. For `o.m = e` that is the object, not the value, and the model keeps that.
- Analyzer.SemanticVisitor.CheckConstructor computes each statement's outcome with a function first (`ClassRules.Outcomes`). A loop then applies the outcomes, in body order, which gives the same errors and the same initialized members.
- The constructor check runs before the constructor itself is registered as a member, as in the source. The members it sees are those declared before it.
- Sexpr.Tokenize treats as space exactly the characters Python's `str` `\s` matches (`\t` to `\r`, `\x1c` to space, and the Unicode spaces from U+0085 to U+3000). Unicode normalisation is not modelled.
- Sexpr.ParseAt returns None where Python raises IndexError (unbalanced input), and it always returns where Python raises RecursionError on nesting deeper than Python's recursion limit. Anything after the first expression is ignored, as in the source.
- FunctionRules.GetTypeFromContext counts the children after the base type. Whether the grammar gives one child per "[]" or per bracket is not part of this model. Both readings are stated (ArrayTypeMatchesText and BracketTokensDoubleDimensions).
- The errors of statements that declare something are stated by the declaring method (VisitVarDecl, VisitConstDecl, VisitFunction's duplicate check, ForeachBinding, VisitMember); the walks that contain them then state only their leading errors, because the later errors are typed in a scope tree the declaration has changed. Members weaker for this reason:
- Analyzer.SemanticVisitor.VisitProgram: states its errors exactly only for a program whose statements declare nothing; with declarations it states only that the log grows and lookups are extended.
- Analyzer.SemanticVisitor.VisitStatements: as VisitProgram: errors exact only when no statement declares anything.
- Analyzer.SemanticVisitor.VisitBlock: states its errors exactly only when no statement in it declares anything.
- Analyzer.SemanticVisitor.VisitStmt: states its errors exactly only for a declaration-free statement; a declaring one is stated by its own method.
- Analyzer.SemanticVisitor.VisitSimpleStmt: as VisitStmt.
- Analyzer.SemanticVisitor.VisitCompoundStmt: as VisitStmt.
- Analyzer.SemanticVisitor.VisitIf: states the condition's errors as a prefix; the blocks' errors only when neither declares anything.
- Analyzer.SemanticVisitor.VisitBranches: states the blocks' errors only when neither declares anything.
- Analyzer.SemanticVisitor.VisitWhile: states the condition's errors as a prefix; the body's errors only when it declares nothing.
- Analyzer.SemanticVisitor.ConditionThenBlock: states the block's errors only when it declares nothing.
- Analyzer.SemanticVisitor.DeeperConditionThenBlock: as ConditionThenBlock.
- Analyzer.SemanticVisitor.VisitDoWhile: states the condition's errors as a suffix; the body's errors only when it declares nothing.
- Analyzer.SemanticVisitor.BlockThenCondition: states the block's errors only when it declares nothing.
- Analyzer.SemanticVisitor.DeeperBlockThenCondition: as BlockThenCondition.
- Analyzer.SemanticVisitor.VisitFor: states the initializer's and header's errors as a prefix; the body's errors only when the loop declares nothing (a declaring initializer included).
- Analyzer.SemanticVisitor.DeeperFor: as VisitFor.
- Analyzer.SemanticVisitor.ForScope: as VisitFor.
- Analyzer.SemanticVisitor.ForInside: as VisitFor.
- Analyzer.SemanticVisitor.VisitForeach: states the binding's errors as a prefix; the body's errors, typed with the loop variable in scope, are not stated.
- Analyzer.SemanticVisitor.ForeachScope: as VisitForeach.
- Analyzer.SemanticVisitor.ForeachInside: as VisitForeach.
- Analyzer.SemanticVisitor.VisitSwitch: states the subject's errors as a prefix; the cases' errors only when no case body declares anything.
- Analyzer.SemanticVisitor.SubjectThenCases: as VisitSwitch.
- Analyzer.SemanticVisitor.VisitCases: states the errors only when no case body declares anything.
- Analyzer.SemanticVisitor.VisitCaseList: as VisitCases.
- Analyzer.SemanticVisitor.NextCase: as VisitCases.
- Analyzer.SemanticVisitor.OneCase: as VisitCases.
- Analyzer.SemanticVisitor.VisitCase: states the case check's errors as a prefix; the body's errors only when it declares nothing.
- Analyzer.SemanticVisitor.CheckThenBody: as VisitCase.
- Analyzer.SemanticVisitor.VisitCaseBody: as VisitCase.
- Analyzer.SemanticVisitor.VisitDefault: states the errors only when the default body declares nothing.
- Analyzer.SemanticVisitor.VisitTryCatch: states the errors only when neither block declares anything and the handler binds no exception name.
- Analyzer.SemanticVisitor.TryThenCatch: as VisitTryCatch.
- Analyzer.SemanticVisitor.ScopedBlock: as VisitBlock.
- Analyzer.SemanticVisitor.VisitCatchBlock: states the errors only for an unnamed handler whose body declares nothing.
- Analyzer.SemanticVisitor.VisitHandler: as VisitCatchBlock.
- Analyzer.SemanticVisitor.NamedCatch: states that the scope tree is kept, not the errors of a body typed with the exception variable in scope.
- Analyzer.SemanticVisitor.VisitFunction: states the function symbol, its parameters, captures and scoping; the errors of its body are not stated.
- Analyzer.SemanticVisitor.DefineFunction: as VisitFunction.
- Analyzer.SemanticVisitor.InFunctionScope: as VisitFunction.
- Analyzer.SemanticVisitor.FunctionScope: as VisitFunction.
- Analyzer.SemanticVisitor.FunctionBody: states that the body keeps every older scope, not its errors.
- Analyzer.SemanticVisitor.VisitClass: states the class symbol, its member map and the scopes; the members' errors are stated per member (VisitMember), not for the whole class.
- Analyzer.SemanticVisitor.VisitMembers: states the member map; the errors of the members are stated one member at a time by VisitMember.
- Integers are unbounded: line and column numbers never reach Java's int limits in practice.
