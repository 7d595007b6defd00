/**
  * `SyntaxProcessor.AnnotationArgumentExtractor`: a visitor over annotation trees that yields
  * the class an `@Syntax(X.class)` use names, or the `RuntimeException.class` sentinel for
  * everything else. Classes are identified by their fully-qualified names; the resolved
  * type the compiler attached to a node (read reflectively from `JCTree.type` in the source)
  * is a field of the node, absent when there is none.
  */
module ArgumentExtractor {
  import opened Wrappers

  type ClassName = string

  /** `RuntimeException.class`, the "not resolved" result. */
  const Sentinel: ClassName := "java.lang.RuntimeException"

  /** The fully-qualified name of the marker annotation `Syntax`. */
  const SyntaxMarker: ClassName := "de.atextor.syntax.annotation.Syntax"

  /** How the compiler prints the type of a class literal: `java.lang.Class<` name `>`. */
  const ClassTypePrefix: string := "java.lang.Class<"

  /** The annotation-related shapes of the compiler's expression trees. */
  datatype Expr =
    | Annotation(annotationType: Expr, arguments: Arguments)
    | Assignment(expression: Expr)
    | MemberSelect(memberType: Option<string>)
    | Identifier(identType: Option<string>)
    | OtherExpr

  /** An annotation's argument list, which the source also checks for `null`. */
  datatype Arguments = NullArguments | ArgumentList(items: seq<Expr>)

  /**
    * The extractor: `annotationType` is the annotation class it looks for and `loadable` the
    * names `Class.forName` can load.
    */
  datatype Extractor = Extractor(annotationType: ClassName, loadable: set<ClassName>)

  predicate StartsWith(s: string, prefix: string)
  {
    |prefix| <= |s| && s[..|prefix|] == prefix
  }

  /** The name `visitMemberSelect` hands to `Class.forName`: characters 16 up to the last one. */
  function ClassLiteralName(typeName: string): string
    requires 16 < |typeName|
  {
    typeName[16..|typeName| - 1]
  }

  /** `node.accept(this, context)`: the visitor dispatch; `hint` is `context == hint`. */
  function Accept(x: Extractor, node: Expr, hint: bool): (r: ClassName)
    ensures r == Sentinel || r == x.annotationType || r in x.loadable
    decreases node, 1
  {
    match node
    case Annotation(_, _) => VisitAnnotation(x, node)
    case Assignment(_) => VisitAssignment(x, node, hint)
    case MemberSelect(_) => VisitMemberSelect(x, node, hint)
    case Identifier(_) => VisitIdentifier(x, node, hint)
    case OtherExpr => Sentinel
  }

  /**
    * `visitAnnotation`: the context is ignored; the annotation type is visited under the hint
    * and, if it is the marker and there is exactly one argument, so is that argument.
    */
  function VisitAnnotation(x: Extractor, node: Expr): (r: ClassName)
    requires node.Annotation?
    ensures r == Sentinel || r == x.annotationType || r in x.loadable
    decreases node, 0
  {
    var resolvedType := Accept(x, node.annotationType, true);
    match node.arguments
    case ArgumentList(args) =>
      if resolvedType != Sentinel && |args| == 1 then Accept(x, args[0], true) else Sentinel
    case NullArguments => Sentinel
  }

  /** `visitAssignment`: under the hint, the right-hand side decides. */
  function VisitAssignment(x: Extractor, node: Expr, hint: bool): (r: ClassName)
    requires node.Assignment?
    ensures r == Sentinel || r == x.annotationType || r in x.loadable
    decreases node, 0
  {
    if hint then Accept(x, node.expression, hint) else Sentinel
  }

  /**
    * `visitMemberSelect`: under the hint, a node whose type prints as `java.lang.Class<N>`
    * yields `Class.forName(N)`, the sentinel when `N` does not load.
    */
  function VisitMemberSelect(x: Extractor, node: Expr, hint: bool): (r: ClassName)
    requires node.MemberSelect?
    ensures r == Sentinel || r in x.loadable
    ensures r != Sentinel ==> hint && node.memberType.Some?
                              && StartsWith(node.memberType.value, ClassTypePrefix)
                              && 16 < |node.memberType.value|
                              && r == ClassLiteralName(node.memberType.value)
  {
    if !hint then Sentinel
    else match node.memberType
      case None => Sentinel
      case Some(typeName) =>
        if !StartsWith(typeName, ClassTypePrefix) || |typeName| == 16 then Sentinel
        else if ClassLiteralName(typeName) in x.loadable then ClassLiteralName(typeName)
        else Sentinel
  }

  /** `visitIdentifier`: under the hint, the annotation class itself if the type is its name. */
  function VisitIdentifier(x: Extractor, node: Expr, hint: bool): (r: ClassName)
    requires node.Identifier?
    ensures r == Sentinel || r == x.annotationType
    ensures r != Sentinel ==> hint && node.identType == Some(x.annotationType)
  {
    if hint && node.identType == Some(x.annotationType) then x.annotationType else Sentinel
  }

  /** The extractor the processor uses: it looks for `@Syntax`. */
  function SyntaxExtractor(loadable: set<ClassName>): Extractor
  {
    Extractor(SyntaxMarker, loadable)
  }

  // ---------------------------------------------------------------------------------------
  // Properties

  /**
    * Outside an annotation (no hint), assignments, member selections and identifiers never
    * resolve; neither does any tree shape the visitor does not handle.
    */
  lemma NoHintNoResolution(x: Extractor, node: Expr)
    requires !node.Annotation?
    ensures Accept(x, node, false) == Sentinel
    ensures node.OtherExpr? ==> Accept(x, node, true) == Sentinel
  {
  }

  /**
    * An annotation resolves only when its type node resolves under the hint and it has
    * exactly one argument; then its result is that argument's, visited under the hint.
    */
  lemma AnnotationRecognition(x: Extractor, annotationType: Expr, arguments: Arguments, hint: bool)
    ensures var r := Accept(x, Annotation(annotationType, arguments), hint);
            r != Sentinel ==> Accept(x, annotationType, true) != Sentinel
                              && arguments.ArgumentList? && |arguments.items| == 1
    ensures Accept(x, annotationType, true) != Sentinel && arguments.ArgumentList? && |arguments.items| == 1 ==>
              Accept(x, Annotation(annotationType, arguments), hint) == Accept(x, arguments.items[0], true)
  {
  }

  /** An assignment gives its right-hand side's result under the hint, and the sentinel outside it. */
  lemma AssignmentRecognition(x: Extractor, expression: Expr, hint: bool)
    ensures Accept(x, Assignment(expression), hint) == if hint then Accept(x, expression, true) else Sentinel
  {
  }

  /** An identifier resolves exactly when the hint is set and its type is the annotation's. */
  lemma IdentifierRecognition(x: Extractor, identType: Option<string>, hint: bool)
    requires x.annotationType != Sentinel
    ensures Accept(x, Identifier(identType), hint) != Sentinel
            <==> hint && identType == Some(x.annotationType)
  {
  }

  /**
    * A class literal `N.class`, whose type prints as `java.lang.Class<N>`, resolves under the
    * hint to `N` exactly when `N` loads.
    */
  lemma ClassLiteralResolution(x: Extractor, name: ClassName)
    ensures var t := ClassTypePrefix + name + ">";
            Accept(x, MemberSelect(Some(t)), true) == if name in x.loadable then name else Sentinel
  {
    var t := ClassTypePrefix + name + ">";
    assert t[..16] == ClassTypePrefix;
    assert ClassLiteralName(t) == name;
  }

  /** A member selection whose type is not a class type never resolves. */
  lemma NonClassMemberSelect(x: Extractor, typeName: string, hint: bool)
    requires !StartsWith(typeName, ClassTypePrefix)
    ensures Accept(x, MemberSelect(Some(typeName)), hint) == Sentinel
  {
  }

  /**
    * The canonical use `@Syntax(X.class)`, after the compiler has made the elided `value =`
    * explicit: it resolves to `X` if `X` loads, otherwise to the sentinel.
    */
  lemma {:induction false} SyntaxUseResolves(loadable: set<ClassName>, name: ClassName)
    ensures var use := Annotation(Identifier(Some(SyntaxMarker)),
                                  ArgumentList([Assignment(MemberSelect(Some(ClassTypePrefix + name + ">")))]));
            Accept(SyntaxExtractor(loadable), use, false) == if name in loadable then name else Sentinel
  {
    var x := SyntaxExtractor(loadable);
    var arg := Assignment(MemberSelect(Some(ClassTypePrefix + name + ">")));
    ClassLiteralResolution(x, name);
    assert Accept(x, arg, true) == Accept(x, MemberSelect(Some(ClassTypePrefix + name + ">")), true);
    assert Accept(x, Identifier(Some(SyntaxMarker)), true) == SyntaxMarker;
    AnnotationRecognition(x, Identifier(Some(SyntaxMarker)), ArgumentList([arg]), false);
  }

  /** An annotation whose type is some other annotation is skipped, whatever its arguments. */
  lemma ForeignAnnotationSkipped(x: Extractor, other: ClassName, arguments: Arguments, hint: bool)
    requires other != x.annotationType
    ensures Accept(x, Annotation(Identifier(Some(other)), arguments), hint) == Sentinel
  {
    assert Accept(x, Identifier(Some(other)), true) == Sentinel;
    AnnotationRecognition(x, Identifier(Some(other)), arguments, hint);
  }

  /**
    * The marker written with its qualified name, `@de.atextor.syntax.annotation.Syntax(X.class)`,
    * has a member selection as its type node; that node's type is not a class type, so the
    * use is skipped like a foreign annotation.
    */
  lemma QualifiedMarkerSkipped(loadable: set<ClassName>, arguments: Arguments, hint: bool)
    ensures Accept(SyntaxExtractor(loadable),
                   Annotation(MemberSelect(Some(SyntaxMarker)), arguments), hint) == Sentinel
  {
    assert SyntaxMarker[0] != ClassTypePrefix[0];
    assert !StartsWith(SyntaxMarker, ClassTypePrefix);
    var x := SyntaxExtractor(loadable);
    assert Accept(x, MemberSelect(Some(SyntaxMarker)), true) == Sentinel;
    AnnotationRecognition(x, MemberSelect(Some(SyntaxMarker)), arguments, hint);
  }
}
