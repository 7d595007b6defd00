/**
  * The scanning and reporting part of `SyntaxProcessor`: the `CompilerTaskListener` that
  * reacts to the end of the ANALYZE phase, the `SyntaxTreeTraverser` that walks the analyzed
  * class and checks every `String` variable with an initializer, and `indicateError`, which
  * hands an ERROR diagnostic to the compiler.
  *
  * The compiler's message sink is the append-only sequence `Processor.messages`. Loading,
  * instantiating and invoking validator classes is the environment's `classes` map: a name
  * loads when it is a key, a class whose instance cannot be made (no default constructor,
  * not accessible, not a function) has no `instance`, and an instance's `apply` may throw.
  */
module SyntaxProcessor {
  import opened Wrappers
  import Literal
  import LineNumbers
  import opened ArgumentExtractor

  /** What one call of a validator's `apply` does: empty, a message, or an exception. */
  datatype Verdict = Valid | Invalid(message: string) | Threw

  /** A loadable class: its simple name and, when it can be instantiated, its `apply`. */
  datatype ClassInfo = ClassInfo(simpleName: string, instance: Option<string -> Verdict>)

  /**
    * The processing environment: the classes `Class.forName` can load, and the platform's
    * line separator, which `%n` in the diagnostic format writes.
    */
  datatype Environment = Environment(classes: map<ClassName, ClassInfo>, lineSeparator: string)

  /**
    * A variable declaration: its name, its position in the source, the text its type node
    * prints as, its annotations in source order, and the text its initializer prints as
    * (absent when there is no initializer).
    */
  datatype Declaration = Declaration(
    name: string,
    position: nat,
    typeText: string,
    annotations: seq<Expr>,
    initializer: Option<string>)

  /**
    * The analyzed tree of a class, reduced to what the traversal meets: variable declarations
    * (with the trees nested in them, such as the members of an anonymous class in the
    * initializer) and any other node with its children, in source order.
    */
  datatype Tree =
    | Variable(declaration: Declaration, nested: seq<Tree>)
    | Node(children: seq<Tree>)

  datatype CompilationUnit = CompilationUnit(path: string)

  /** `javax.tools.Diagnostic.Kind`. */
  datatype Kind = Error | Warning | MandatoryWarning | Note | OtherKind

  /** One message printed through `Trees.printMessage`: kind, text, node and unit. */
  datatype Diagnostic = Diagnostic(kind: Kind, message: string, location: Declaration, unit: CompilationUnit)

  /** `TaskEvent.Kind`. */
  datatype EventKind =
    | Parse | Enter | Analyze | Generate
    | AnnotationProcessing | AnnotationProcessingRound | Compilation

  /** A finished-task event: its kind, its compilation unit and the tree of its type element. */
  datatype TaskEvent = TaskEvent(kind: EventKind, unit: CompilationUnit, typeTree: Tree)

  /** A validator applied to a value, as recorded in the processor's invocation log. */
  type Invocation = (ClassName, string)

  // ---------------------------------------------------------------------------------------
  // Specification of one declaration

  /** Only a variable with an initializer whose type prints exactly as `String` is checked. */
  predicate Eligible(d: Declaration)
  {
    d.initializer.Some? && d.typeText == "String"
  }

  /** The annotation argument extractor the processor holds: it looks for `@Syntax`. */
  function ExtractorOf(env: Environment): Extractor
  {
    SyntaxExtractor(env.classes.Keys)
  }

  /** The result of visiting one annotation with context `null`. */
  function Resolve(env: Environment, annotation: Expr): ClassName
  {
    Accept(ExtractorOf(env), annotation, false)
  }

  /** `checkerClasses`: the annotations mapped through the extractor, the sentinel removed. */
  function CheckerClasses(env: Environment, annotations: seq<Expr>): (r: seq<ClassName>)
    ensures |r| <= |annotations|
    ensures forall i :: 0 <= i < |r| ==>
              r[i] != Sentinel && (r[i] == SyntaxMarker || r[i] in env.classes)
  {
    if annotations == [] then []
    else
      var c := Resolve(env, annotations[0]);
      (if c != Sentinel then [c] else []) + CheckerClasses(env, annotations[1..])
  }

  /**
    * The validator `cls` applied to `value`. Only a class that loads and can be instantiated
    * gets to pass or fail; any other throws, which the loop catches.
    */
  function Check(env: Environment, cls: ClassName, value: string): (r: Verdict)
    ensures r != Threw ==> cls in env.classes && env.classes[cls].instance.Some?
  {
    if cls in env.classes && env.classes[cls].instance.Some?
    then env.classes[cls].instance.value(value)
    else Threw
  }

  function SimpleName(env: Environment, cls: ClassName): string
  {
    if cls in env.classes then env.classes[cls].simpleName else cls
  }

  /**
    * `String.format("%s syntax validation failed:%n%s%n%s", simpleName, numbered, message)`:
    * the text starts with the validator's simple name and ends with its message.
    */
  function FailureMessage(env: Environment, cls: ClassName, value: string, message: string): (r: string)
    ensures var head := SimpleName(env, cls) + " syntax validation failed:";
            |head| + |message| <= |r| && r[..|head|] == head && r[|r| - |message|..] == message
  {
    SimpleName(env, cls) + " syntax validation failed:" + env.lineSeparator
    + LineNumbers.AddLineNumbers(value) + env.lineSeparator + message
  }

  /**
    * The diagnostics the validator loop over `classes` emits for the declaration `d`: one per
    * failing validator (`ReportsAreFailures` says which), so at most one per validator.
    */
  function Reports(env: Environment, d: Declaration, unit: CompilationUnit,
                   classes: seq<ClassName>, value: string): (r: seq<Diagnostic>)
    ensures |r| <= |classes|
  {
    if classes == [] then []
    else
      var verdict := Check(env, classes[0], value);
      (if verdict.Invalid?
       then [Diagnostic(Error, FailureMessage(env, classes[0], value, verdict.message), d, unit)]
       else [])
      + Reports(env, d, unit, classes[1..], value)
  }

  /** The validators the loop over `classes` manages to instantiate and apply to `value`. */
  function Invocations(env: Environment, classes: seq<ClassName>, value: string): seq<Invocation>
  {
    if classes == [] then []
    else
      (if classes[0] in env.classes && env.classes[classes[0]].instance.Some?
       then [(classes[0], value)] else [])
      + Invocations(env, classes[1..], value)
  }

  /**
    * The diagnostics of one declaration, at most one per collected validator. A declaration
    * that is not checked has none, and so has a token shorter than two characters, on which
    * the source's decoder throws and ends the compilation (see `VisitVariableAsWritten`).
    */
  function DeclarationDiagnostics(env: Environment, d: Declaration, unit: CompilationUnit): (r: seq<Diagnostic>)
    ensures |r| <= |CheckerClasses(env, d.annotations)| <= |d.annotations|
    ensures !Eligible(d) || |d.initializer.value| < 2 ==> r == []
  {
    if !Eligible(d) then []
    else match Literal.Unescape(d.initializer.value)
      case None => []
      case Some(value) => Reports(env, d, unit, CheckerClasses(env, d.annotations), value)
  }

  function DeclarationInvocations(env: Environment, d: Declaration): seq<Invocation>
  {
    if !Eligible(d) then []
    else match Literal.Unescape(d.initializer.value)
      case None => []
      case Some(value) => Invocations(env, CheckerClasses(env, d.annotations), value)
  }

  // ---------------------------------------------------------------------------------------
  // Specification of a whole tree

  /** The declarations in the order `TreePathScanner` visits them: a variable before its nested trees. */
  function Declarations(t: Tree): seq<Declaration>
  {
    match t
    case Variable(d, nested) => [d] + ForestDeclarations(nested)
    case Node(children) => ForestDeclarations(children)
  }

  function ForestDeclarations(ts: seq<Tree>): seq<Declaration>
  {
    if ts == [] then [] else Declarations(ts[0]) + ForestDeclarations(ts[1..])
  }

  /** The diagnostics of the declarations `ds`, one declaration after the other. */
  function UnitDiagnostics(env: Environment, ds: seq<Declaration>, unit: CompilationUnit): seq<Diagnostic>
  {
    if ds == [] then [] else DeclarationDiagnostics(env, ds[0], unit) + UnitDiagnostics(env, ds[1..], unit)
  }

  function UnitInvocations(env: Environment, ds: seq<Declaration>): seq<Invocation>
  {
    if ds == [] then [] else DeclarationInvocations(env, ds[0]) + UnitInvocations(env, ds[1..])
  }

  // ---------------------------------------------------------------------------------------
  // Properties of the specification

  lemma {:induction false} CheckerClassesAppend(env: Environment, xs: seq<Expr>, ys: seq<Expr>)
    ensures CheckerClasses(env, xs + ys) == CheckerClasses(env, xs) + CheckerClasses(env, ys)
  {
    if xs != [] {
      assert (xs + ys)[1..] == xs[1..] + ys;
      CheckerClassesAppend(env, xs[1..], ys);
    } else {
      assert xs + ys == ys;
    }
  }

  /**
    * The validator list holds exactly the non-sentinel results of the annotations, in the
    * annotations' order: an annotation's result precedes the results of those after it.
    */
  lemma {:induction false} CheckerClassesExactly(env: Environment, annotations: seq<Expr>, c: ClassName)
    ensures c in CheckerClasses(env, annotations) <==>
            c != Sentinel && exists i :: 0 <= i < |annotations| && Resolve(env, annotations[i]) == c
  {
    if annotations != [] {
      CheckerClassesExactly(env, annotations[1..], c);
      if c != Sentinel && Resolve(env, annotations[0]) != c {
        if exists i :: 0 <= i < |annotations| && Resolve(env, annotations[i]) == c {
          var i :| 0 <= i < |annotations| && Resolve(env, annotations[i]) == c;
          assert annotations[1..][i - 1] == annotations[i];
        }
      }
      if c != Sentinel && Resolve(env, annotations[0]) == c {
        assert c in CheckerClasses(env, annotations);
      }
      if exists i :: 0 <= i < |annotations[1..]| && Resolve(env, annotations[1..][i]) == c {
        var i :| 0 <= i < |annotations[1..]| && Resolve(env, annotations[1..][i]) == c;
        assert annotations[i + 1] == annotations[1..][i];
      }
    }
  }

  /** An annotation that is not a resolvable `@Syntax` use leaves the others' validators as they are. */
  lemma ForeignAnnotationIgnored(env: Environment, xs: seq<Expr>, foreign: Expr, ys: seq<Expr>)
    requires Resolve(env, foreign) == Sentinel
    ensures CheckerClasses(env, xs + [foreign] + ys) == CheckerClasses(env, xs + ys)
  {
    CheckerClassesAppend(env, xs + [foreign], ys);
    CheckerClassesAppend(env, xs, [foreign]);
    CheckerClassesAppend(env, xs, ys);
    assert CheckerClasses(env, [foreign]) == [];
  }

  /** A validator's outcome never stops the ones after it: the loop's output is a concatenation. */
  lemma {:induction false} ReportsAppend(env: Environment, d: Declaration, unit: CompilationUnit,
                                         xs: seq<ClassName>, ys: seq<ClassName>, value: string)
    ensures Reports(env, d, unit, xs + ys, value) == Reports(env, d, unit, xs, value) + Reports(env, d, unit, ys, value)
    ensures Invocations(env, xs + ys, value) == Invocations(env, xs, value) + Invocations(env, ys, value)
  {
    if xs == [] {
      assert xs + ys == ys;
    } else {
      var zs := xs + ys;
      assert zs[0] == xs[0] && zs[1..] == xs[1..] + ys;
      ReportsAppend(env, d, unit, xs[1..], ys, value);
      var verdict := Check(env, xs[0], value);
      var head := if verdict.Invalid?
                  then [Diagnostic(Error, FailureMessage(env, xs[0], value, verdict.message), d, unit)]
                  else [];
      var rest := Reports(env, d, unit, xs[1..], value);
      assert Reports(env, d, unit, zs, value) == head + (rest + Reports(env, d, unit, ys, value));
      AppendAssoc(head, rest, Reports(env, d, unit, ys, value));
      var called := if xs[0] in env.classes && env.classes[xs[0]].instance.Some? then [(xs[0], value)] else [];
      var more := Invocations(env, xs[1..], value);
      assert Invocations(env, zs, value) == called + (more + Invocations(env, ys, value));
      AppendAssoc(called, more, Invocations(env, ys, value));
    }
  }

  /** The effects of the first `i + 1` validators are those of the first `i`, then those of validator `i`. */
  lemma ReportsPrefix(env: Environment, d: Declaration, unit: CompilationUnit,
                      classes: seq<ClassName>, i: nat, value: string)
    requires i < |classes|
    ensures Reports(env, d, unit, classes[..i + 1], value)
            == Reports(env, d, unit, classes[..i], value) + Reports(env, d, unit, [classes[i]], value)
    ensures Invocations(env, classes[..i + 1], value)
            == Invocations(env, classes[..i], value) + Invocations(env, [classes[i]], value)
  {
    assert classes[..i + 1] == classes[..i] + [classes[i]];
    ReportsAppend(env, d, unit, classes[..i], [classes[i]], value);
  }

  /** The failing validators of `classes`, in order, with their messages. */
  function Failures(env: Environment, classes: seq<ClassName>, value: string): seq<(ClassName, string)>
  {
    if classes == [] then []
    else
      (match Check(env, classes[0], value)
       case Invalid(m) => [(classes[0], m)]
       case _ => [])
      + Failures(env, classes[1..], value)
  }

  /**
    * Exactly one diagnostic per failing validator, in the validators' order: the `k`-th
    * diagnostic is an ERROR on the declaration and its unit whose text names the `k`-th
    * failing validator, numbers the decoded value's lines and ends with that validator's
    * message. Validators that pass or throw add nothing.
    */
  lemma {:induction false} ReportsAreFailures(env: Environment, d: Declaration, unit: CompilationUnit,
                                              classes: seq<ClassName>, value: string)
    ensures var r := Reports(env, d, unit, classes, value);
            var f := Failures(env, classes, value);
            |r| == |f| &&
            forall k :: 0 <= k < |r| ==>
              r[k] == Diagnostic(Error, FailureMessage(env, f[k].0, value, f[k].1), d, unit)
  {
    if classes != [] {
      ReportsAreFailures(env, d, unit, classes[1..], value);
    }
  }

  /** A declaration that is not a `String` variable with an initializer is silent and calls no validator. */
  lemma IneligibleIsSilent(env: Environment, d: Declaration, unit: CompilationUnit)
    requires !Eligible(d)
    ensures DeclarationDiagnostics(env, d, unit) == []
    ensures DeclarationInvocations(env, d) == []
  {
  }

  /**
    * The invariant of the diagnostic stream for one declaration: it has a diagnostic exactly
    * when it is eligible, its initializer decodes, and some validator on it fails.
    */
  lemma DeclarationDiagnosticsIff(env: Environment, d: Declaration, unit: CompilationUnit)
    ensures DeclarationDiagnostics(env, d, unit) != [] <==>
            Eligible(d) && |d.initializer.value| >= 2 &&
            Failures(env, CheckerClasses(env, d.annotations), Literal.Unescape(d.initializer.value).value) != []
  {
    if Eligible(d) && |d.initializer.value| >= 2 {
      var value := Literal.Unescape(d.initializer.value).value;
      ReportsAreFailures(env, d, unit, CheckerClasses(env, d.annotations), value);
    }
  }

  /**
    * Every validator applied to a declaration is one of its collected validators, and all
    * are applied to the same value: the initializer decoded once.
    */
  lemma {:induction false} InvocationsShareDecodedValue(env: Environment, classes: seq<ClassName>, value: string)
    ensures forall k :: 0 <= k < |Invocations(env, classes, value)| ==>
              Invocations(env, classes, value)[k].1 == value
              && Invocations(env, classes, value)[k].0 in classes
              && Invocations(env, classes, value)[k].0 in env.classes
  {
    if classes != [] {
      InvocationsShareDecodedValue(env, classes[1..], value);
    }
  }

  /** Every diagnostic of a declaration is an ERROR attached to that declaration and its unit. */
  lemma DeclarationDiagnosticsAttached(env: Environment, d: Declaration, unit: CompilationUnit)
    ensures forall k :: 0 <= k < |DeclarationDiagnostics(env, d, unit)| ==>
              var x := DeclarationDiagnostics(env, d, unit)[k];
              x.kind == Error && x.location == d && x.unit == unit
  {
    if Eligible(d) && |d.initializer.value| >= 2 {
      var value := Literal.Unescape(d.initializer.value).value;
      ReportsAreFailures(env, d, unit, CheckerClasses(env, d.annotations), value);
    }
  }

  /**
    * One declaration never stops the scan of the others: the diagnostics of a sequence of
    * declarations are those of its parts, in source order.
    */
  lemma {:induction false} UnitDiagnosticsAppend(env: Environment, xs: seq<Declaration>, ys: seq<Declaration>,
                                                 unit: CompilationUnit)
    ensures UnitDiagnostics(env, xs + ys, unit) == UnitDiagnostics(env, xs, unit) + UnitDiagnostics(env, ys, unit)
    ensures UnitInvocations(env, xs + ys) == UnitInvocations(env, xs) + UnitInvocations(env, ys)
  {
    if xs == [] {
      assert xs + ys == ys;
    } else {
      var zs := xs + ys;
      assert zs[0] == xs[0] && zs[1..] == xs[1..] + ys;
      UnitDiagnosticsAppend(env, xs[1..], ys, unit);
      var d, rest := DeclarationDiagnostics(env, xs[0], unit), UnitDiagnostics(env, xs[1..], unit);
      assert UnitDiagnostics(env, zs, unit) == d + (rest + UnitDiagnostics(env, ys, unit));
      AppendAssoc(d, rest, UnitDiagnostics(env, ys, unit));
      var v, more := DeclarationInvocations(env, xs[0]), UnitInvocations(env, xs[1..]);
      assert UnitInvocations(env, zs) == v + (more + UnitInvocations(env, ys));
      AppendAssoc(v, more, UnitInvocations(env, ys));
    }
  }

  lemma {:induction false} ForestDeclarationsAppend(xs: seq<Tree>, ys: seq<Tree>)
    ensures ForestDeclarations(xs + ys) == ForestDeclarations(xs) + ForestDeclarations(ys)
  {
    if xs == [] {
      assert xs + ys == ys;
    } else {
      assert (xs + ys)[1..] == xs[1..] + ys;
      ForestDeclarationsAppend(xs[1..], ys);
    }
  }

  lemma ForestDeclarationsPrefix(ts: seq<Tree>, i: nat)
    requires i < |ts|
    ensures ForestDeclarations(ts[..i + 1]) == ForestDeclarations(ts[..i]) + Declarations(ts[i])
  {
    assert ts[..i + 1] == ts[..i] + [ts[i]];
    ForestDeclarationsAppend(ts[..i], [ts[i]]);
    assert ForestDeclarations([ts[i]]) == Declarations(ts[i]) + ForestDeclarations([]);
  }

  /** The effects of the first `i + 1` children are those of the first `i`, then those of child `i`. */
  lemma ForestPrefixEffects(env: Environment, ts: seq<Tree>, i: nat, unit: CompilationUnit)
    requires i < |ts|
    ensures UnitDiagnostics(env, ForestDeclarations(ts[..i + 1]), unit)
            == UnitDiagnostics(env, ForestDeclarations(ts[..i]), unit) + UnitDiagnostics(env, Declarations(ts[i]), unit)
    ensures UnitInvocations(env, ForestDeclarations(ts[..i + 1]))
            == UnitInvocations(env, ForestDeclarations(ts[..i])) + UnitInvocations(env, Declarations(ts[i]))
  {
    ForestDeclarationsPrefix(ts, i);
    UnitDiagnosticsAppend(env, ForestDeclarations(ts[..i]), Declarations(ts[i]), unit);
  }

  lemma AppendAssoc<T>(a: seq<T>, b: seq<T>, c: seq<T>)
    ensures a + b + c == a + (b + c)
  {
  }

  /**
    * The invariant of the whole stream: every diagnostic of a unit is an ERROR on that unit,
    * attached to one of its declarations, which is eligible.
    */
  lemma {:induction false} UnitDiagnosticsOrigin(env: Environment, ds: seq<Declaration>, unit: CompilationUnit)
    ensures forall k :: 0 <= k < |UnitDiagnostics(env, ds, unit)| ==>
              var x := UnitDiagnostics(env, ds, unit)[k];
              x.kind == Error && x.unit == unit && x.location in ds && Eligible(x.location)
  {
    if ds != [] {
      UnitDiagnosticsOrigin(env, ds[1..], unit);
      DeclarationDiagnosticsAttached(env, ds[0], unit);
      var head := DeclarationDiagnostics(env, ds[0], unit);
      var all := UnitDiagnostics(env, ds, unit);
      forall k | 0 <= k < |all|
        ensures all[k].kind == Error && all[k].unit == unit && all[k].location in ds && Eligible(all[k].location)
      {
        if k < |head| {
          assert all[k] == head[k];
          assert head != [];
        } else {
          assert all[k] == UnitDiagnostics(env, ds[1..], unit)[k - |head|];
          assert all[k].location in ds[1..];
        }
      }
    }
  }

  // ---------------------------------------------------------------------------------------
  // The processor

  class Processor {
    /** The processing environment, fixed at `init`. */
    const env: Environment

    /** Every diagnostic printed so far, in order; only ever appended to. */
    var messages: seq<Diagnostic>

    /** Every validator applied so far and the value it was applied to. */
    ghost var invocations: seq<Invocation>

    constructor (env: Environment)
      ensures this.env == env && messages == [] && invocations == []
    {
      this.env := env;
      messages := [];
      invocations := [];
    }

    /** `indicateError`: print an ERROR diagnostic on `location` in `unit`. */
    method IndicateError(message: string, location: Declaration, unit: CompilationUnit)
      modifies this
      ensures messages == old(messages) + [Diagnostic(Error, message, location, unit)]
      ensures invocations == old(invocations)
    {
      messages := messages + [Diagnostic(Error, message, location, unit)];
    }

    /** `CompilerTaskListener.finished`: only the end of ANALYZE starts a scan, of the event's type. */
    method Finished(event: TaskEvent)
      modifies this
      ensures messages == old(messages) +
              if event.kind == Analyze then UnitDiagnostics(env, Declarations(event.typeTree), event.unit) else []
      ensures invocations == old(invocations) +
              if event.kind == Analyze then UnitInvocations(env, Declarations(event.typeTree)) else []
    {
      if event.kind != Analyze {
        return;
      }
      Scan(event.typeTree, event.unit);
    }

    /** `TreePathScanner.scan`: dispatch on the node, visiting a variable before what it contains. */
    method Scan(t: Tree, unit: CompilationUnit)
      modifies this
      ensures messages == old(messages) + UnitDiagnostics(env, Declarations(t), unit)
      ensures invocations == old(invocations) + UnitInvocations(env, Declarations(t))
      decreases t, 1
    {
      match t
      case Variable(_, _) =>
        VisitVariable(t, unit);
      case Node(children) =>
        ScanChildren(children, unit);
    }

    /** The scanner's walk over a node's children, in source order. */
    method ScanChildren(ts: seq<Tree>, unit: CompilationUnit)
      modifies this
      ensures messages == old(messages) + UnitDiagnostics(env, ForestDeclarations(ts), unit)
      ensures invocations == old(invocations) + UnitInvocations(env, ForestDeclarations(ts))
      decreases ts
    {
      var i := 0;
      while i < |ts|
        invariant 0 <= i <= |ts|
        invariant messages == old(messages) + UnitDiagnostics(env, ForestDeclarations(ts[..i]), unit)
        invariant invocations == old(invocations) + UnitInvocations(env, ForestDeclarations(ts[..i]))
      {
        Scan(ts[i], unit);
        ForestPrefixEffects(env, ts, i, unit);
        AppendAssoc(old(messages), UnitDiagnostics(env, ForestDeclarations(ts[..i]), unit), UnitDiagnostics(env, Declarations(ts[i]), unit));
        AppendAssoc(old(invocations), UnitInvocations(env, ForestDeclarations(ts[..i])), UnitInvocations(env, Declarations(ts[i])));
        i := i + 1;
      }
      assert ts[..i] == ts;
    }

    /**
      * `SyntaxTreeTraverser.visitVariable`: check an eligible declaration with each of its
      * validators, then scan what it contains.
      */
    method VisitVariable(t: Tree, unit: CompilationUnit)
      requires t.Variable?
      modifies this
      ensures messages == old(messages) + UnitDiagnostics(env, Declarations(t), unit)
      ensures invocations == old(invocations) + UnitInvocations(env, Declarations(t))
      decreases t, 0
    {
      var d := t.declaration;
      CheckDeclaration(d, unit);
      ScanChildren(t.nested, unit);
      assert Declarations(t) == [d] + ForestDeclarations(t.nested);
      UnitDiagnosticsAppend(env, [d], ForestDeclarations(t.nested), unit);
      assert UnitDiagnostics(env, [d], unit) == DeclarationDiagnostics(env, d, unit) + UnitDiagnostics(env, [], unit);
      assert UnitInvocations(env, [d]) == DeclarationInvocations(env, d) + UnitInvocations(env, []);
      AppendAssoc(old(messages), DeclarationDiagnostics(env, d, unit), UnitDiagnostics(env, ForestDeclarations(t.nested), unit));
      AppendAssoc(old(invocations), DeclarationInvocations(env, d), UnitInvocations(env, ForestDeclarations(t.nested)));
    }

    /** The checks of one declaration: the part of `visitVariable` before the scan of its children. */
    method CheckDeclaration(d: Declaration, unit: CompilationUnit)
      modifies this
      ensures messages == old(messages) + DeclarationDiagnostics(env, d, unit)
      ensures invocations == old(invocations) + DeclarationInvocations(env, d)
    {
      if d.initializer.None? || d.typeText != "String" {
        return;
      }
      var checkerClasses := CheckerClasses(env, d.annotations);
      var decoded := Literal.Unescape(d.initializer.value);
      if decoded.None? {
        return;
      }
      var value := decoded.value;
      var i := 0;
      while i < |checkerClasses|
        invariant 0 <= i <= |checkerClasses|
        invariant messages == old(messages) + Reports(env, d, unit, checkerClasses[..i], value)
        invariant invocations == old(invocations) + Invocations(env, checkerClasses[..i], value)
      {
        var clazz := checkerClasses[i];
        ghost var before, logged := messages, invocations;
        if clazz in env.classes && env.classes[clazz].instance.Some? {
          var syntaxChecker := env.classes[clazz].instance.value;
          var errorMessage := syntaxChecker(value);
          invocations := invocations + [(clazz, value)];
          if errorMessage.Invalid? {
            IndicateError(FailureMessage(env, clazz, value, errorMessage.message), d, unit);
          }
        }
        assert messages == before + Reports(env, d, unit, [clazz], value);
        assert invocations == logged + Invocations(env, [clazz], value);
        ReportsPrefix(env, d, unit, checkerClasses, i, value);
        AppendAssoc(old(messages), Reports(env, d, unit, checkerClasses[..i], value), Reports(env, d, unit, [clazz], value));
        AppendAssoc(old(invocations), Invocations(env, checkerClasses[..i], value), Invocations(env, [clazz], value));
        i := i + 1;
      }
      assert checkerClasses[..i] == checkerClasses;
    }
  }

  // ---------------------------------------------------------------------------------------
  // The decoder's exception, as written

  /**
    * What a scan comes to when the decoder may throw: its diagnostics, or an aborted
    * compilation together with the diagnostics printed before the exception.
    */
  datatype Outcome = Completed(diagnostics: seq<Diagnostic>) | Aborted(emitted: seq<Diagnostic>)

  /** The source decodes every eligible initializer, and throws outside any `try` on one shorter than two. */
  predicate AbortsAsWritten(d: Declaration)
  {
    Eligible(d) && |d.initializer.value| < 2
  }

  /** `i` is the first declaration of `ds` on which the source throws. */
  predicate FirstAbort(ds: seq<Declaration>, i: int)
  {
    0 <= i < |ds| && AbortsAsWritten(ds[i]) && forall j :: 0 <= j < i ==> !AbortsAsWritten(ds[j])
  }

  /**
    * `visitVariable` as written: the decoder's exception escapes and ends the compilation
    * before any validator of the declaration runs; otherwise it agrees with `DeclarationDiagnostics`.
    */
  function VisitVariableAsWritten(env: Environment, d: Declaration, unit: CompilationUnit): (r: Outcome)
    ensures r.Aborted? <==> AbortsAsWritten(d)
    ensures r.Aborted? ==> r.emitted == []
    ensures r.Completed? ==> r.diagnostics == DeclarationDiagnostics(env, d, unit)
  {
    if !Eligible(d) then Completed([])
    else match Literal.Unescape(d.initializer.value)
      case None => Aborted([])
      case Some(value) => Completed(Reports(env, d, unit, CheckerClasses(env, d.annotations), value))
  }

  /**
    * The declarations of a unit scanned as written: the first exception ends the scan, after
    * the declarations before it have printed their diagnostics.
    */
  function ScanAsWritten(env: Environment, ds: seq<Declaration>, unit: CompilationUnit): (r: Outcome)
    ensures r.Aborted? <==> exists i :: 0 <= i < |ds| && AbortsAsWritten(ds[i])
    ensures r.Completed? ==> r.diagnostics == UnitDiagnostics(env, ds, unit)
    ensures r.Aborted? ==> exists i :: FirstAbort(ds, i) && r.emitted == UnitDiagnostics(env, ds[..i], unit)
  {
    if ds == [] then Completed([])
    else match VisitVariableAsWritten(env, ds[0], unit)
      case Aborted(_) =>
        assert FirstAbort(ds, 0) && ds[..0] == [];
        Aborted([])
      case Completed(head) =>
        match ScanAsWritten(env, ds[1..], unit)
        case Aborted(emitted) =>
          var i :| FirstAbort(ds[1..], i) && emitted == UnitDiagnostics(env, ds[1..][..i], unit);
          assert FirstAbort(ds, i + 1) by {
            assert forall j :: 0 < j < |ds| ==> ds[j] == ds[1..][j - 1];
          }
          assert ds[..i + 1][1..] == ds[1..][..i] && ds[..i + 1][0] == ds[0];
          assert UnitDiagnostics(env, ds[..i + 1], unit) == head + emitted;
          Aborted(head + emitted)
        case Completed(tail) =>
          assert forall i :: 0 < i < |ds| ==> ds[i] == ds[1..][i - 1];
          Completed(head + tail)
  }

  /**
    * The discrepancy: `String s = a;` with no annotation at all, followed by a JSON field whose
    * validator fails. As written the one-letter initializer throws before the field is
    * reached; corrected, the first declaration is skipped and the field is reported.
    */
  lemma OneLetterInitializerAbortsScan(unit: CompilationUnit)
    ensures var json := "de.atextor.syntax.JSON";
            var env := Environment(map[json := ClassInfo("JSON", Some(_ => Invalid("unexpected end")))], "\n");
            var plain := Declaration("s", 0, "String", [], Some("a"));
            var use := Annotation(Identifier(Some(SyntaxMarker)),
                                  ArgumentList([Assignment(MemberSelect(Some(ClassTypePrefix + json + ">")))]));
            var field := Declaration("brokenJson", 1, "String", [use], Some("\"{\""));
            ScanAsWritten(env, [plain, field], unit) == Aborted([])
            && |UnitDiagnostics(env, [plain, field], unit)| == 1
            && UnitDiagnostics(env, [plain, field], unit)[0].location == field
  {
    var json := "de.atextor.syntax.JSON";
    var env := Environment(map[json := ClassInfo("JSON", Some(_ => Invalid("unexpected end")))], "\n");
    var plain := Declaration("s", 0, "String", [], Some("a"));
    var use := Annotation(Identifier(Some(SyntaxMarker)),
                          ArgumentList([Assignment(MemberSelect(Some(ClassTypePrefix + json + ">")))]));
    var field := Declaration("brokenJson", 1, "String", [use], Some("\"{\""));
    assert AbortsAsWritten([plain, field][0]);
    SyntaxUseResolves(env.classes.Keys, json);
    assert Resolve(env, use) == json;
    assert CheckerClasses(env, [use]) == [json] + CheckerClasses(env, []);
    assert Check(env, json, "{") == Invalid("unexpected end");
    assert DeclarationDiagnostics(env, plain, unit) == [];
    assert "\"{\""[1..2] == "{";
    assert Literal.Unescape("\"{\"") == Some("{");
    assert Reports(env, field, unit, [json], "{") ==
           [Diagnostic(Error, FailureMessage(env, json, "{", "unexpected end"), field, unit)]
           + Reports(env, field, unit, [], "{");
    assert |DeclarationDiagnostics(env, field, unit)| == 1;
    DeclarationDiagnosticsAttached(env, field, unit);
    assert [plain, field][1..] == [field];
    assert [field][1..] == [];
    assert UnitDiagnostics(env, [field], unit) == DeclarationDiagnostics(env, field, unit) + UnitDiagnostics(env, [], unit);
    assert UnitDiagnostics(env, [plain, field], unit) == DeclarationDiagnostics(env, plain, unit) + UnitDiagnostics(env, [field], unit);
  }
}
