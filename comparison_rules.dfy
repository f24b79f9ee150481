/**
 * The type rules ComparisonVisitor applies to equality and relational
 * chains: "null" compares with anything, "desconocido" silences a check,
 * and only integer and string are ordered.
 */
module ComparisonRules {
  import opened Options
  import opened Types
  import opened Errors
  import LogicalRules

  /** Types that may appear on the two sides of `==`/`!=`. */
  predicate EqualityCompatible(a: string, b: string) {
    a == UNKNOWN || b == UNKNOWN || a == NULL || b == NULL || a == b
  }

  /** Types that may appear on the two sides of `<`, `>`, `<=`, `>=`. */
  predicate RelationalCompatible(a: string, b: string) {
    a == UNKNOWN || b == UNKNOWN || a == b
  }

  predicate Orderable(t: string) {
    t == INTEGER || t == STRING
  }

  /** One `==`/`!=` step: always boolean, one error for incompatible sides. */
  function CompareEqualityStep(op: string, left: string, right: string): (r: StepResult)
    ensures r.ty == BOOLEAN
    ensures |r.msgs| <= 1
    ensures r.msgs == [] <==> EqualityCompatible(left, right)
    ensures r.msgs != [] ==> r.msgs[0] == ComparisonMessage(op, Show(left), Show(right))
  {
    StepResult(BOOLEAN, if !EqualityCompatible(left, right) then [ComparisonMessage(op, Show(left), Show(right))] else [])
  }

  /**
   * One relational step: always boolean; incompatible sides are reported,
   * and otherwise an unorderable LEFT side is.
   */
  function CompareRelationalStep(op: string, left: string, right: string): (r: StepResult)
    ensures r.ty == BOOLEAN
    ensures |r.msgs| <= 1
    ensures r.msgs == [] <==> RelationalCompatible(left, right) && Orderable(left)
  {
    StepResult(BOOLEAN,
      if !RelationalCompatible(left, right) then [RelationalMessage(op, Show(left), Show(right))]
      else if !Orderable(left) then [NonOrderableMessage(op, Show(left))]
      else [])
  }

  /**
   * sonTiposCompatiblesParaIgualdad as written, with None standing for the
   * NullPointerException of `tipo1.equals(tipo2)` on a Java null left type.
   */
  function JavaEqualityCompatible(t1: string, t2: string): Option<bool> {
    if t1 == UNKNOWN || t2 == UNKNOWN then Some(true)
    else if t1 == NULL || t2 == NULL then Some(true)
    else if t1 == NO_TYPE then None
    else Some(t1 == t2)
  }

  /** sonTiposCompatiblesParaRelacional as written, with None for the same exception. */
  function JavaRelationalCompatible(t1: string, t2: string): Option<bool> {
    if t1 == UNKNOWN || t2 == UNKNOWN then Some(true)
    else if t1 == NO_TYPE then None
    else Some(t1 == t2)
  }

  /**
   * The model's compatibilities agree with the Java helpers wherever those
   * return, and the helpers throw exactly on a Java null left type that is
   * not excused by the right side. The helpers are therefore not symmetric:
   * `null-type == integer` throws while `integer == null-type` is false.
   */
  lemma CompatibilityAgreesWithJava(a: string, b: string)
    ensures JavaEqualityCompatible(a, b).None? <==> a == NO_TYPE && b != UNKNOWN && b != NULL
    ensures JavaEqualityCompatible(a, b).Some? ==> JavaEqualityCompatible(a, b).value == EqualityCompatible(a, b)
    ensures JavaRelationalCompatible(a, b).None? <==> a == NO_TYPE && b != UNKNOWN
    ensures JavaRelationalCompatible(a, b).Some? ==> JavaRelationalCompatible(a, b).value == RelationalCompatible(a, b)
    ensures JavaEqualityCompatible(NO_TYPE, INTEGER).None? && JavaEqualityCompatible(INTEGER, NO_TYPE) == Some(false)
  {
  }

  /**
   * On the inputs where the Java helpers throw, the model's steps report
   * instead: a message naming "null", except that a Java null on both
   * sides of `==` is accepted and is reported as unorderable by `<`.
   */
  lemma ThrowingInputsReported(op: string, right: string)
    ensures JavaEqualityCompatible(NO_TYPE, right).None? ==>
      CompareEqualityStep(op, NO_TYPE, right).msgs ==
        (if right == NO_TYPE then [] else [ComparisonMessage(op, NULL, Show(right))])
    ensures JavaRelationalCompatible(NO_TYPE, right).None? ==>
      CompareRelationalStep(op, NO_TYPE, right).msgs ==
        (if right == NO_TYPE then [NonOrderableMessage(op, NULL)] else [RelationalMessage(op, NULL, Show(right))])
  {
  }

  /** Compatibility for equality is symmetric, and relational compatibility implies it. */
  lemma CompatibilityFacts(a: string, b: string)
    ensures EqualityCompatible(a, b) == EqualityCompatible(b, a)
    ensures RelationalCompatible(a, b) == RelationalCompatible(b, a)
    ensures RelationalCompatible(a, b) ==> EqualityCompatible(a, b)
  {
  }

  /**
   * Equality reports exactly two different known types, neither of them
   * "null", whichever order they are written in.
   */
  lemma EqualityReportsDistinctKnownTypes(op: string, a: string, b: string)
    ensures CompareEqualityStep(op, a, b).msgs != [] <==> a != b && a !in {UNKNOWN, NULL} && b !in {UNKNOWN, NULL}
    ensures (CompareEqualityStep(op, a, b).msgs == []) == (CompareEqualityStep(op, b, a).msgs == [])
  {
  }

  /**
   * Orderability is only checked on the left: an unknown left side is
   * always reported, an unknown right side never is.
   */
  lemma OrderabilityIsLeftSided(op: string, t: string)
    ensures CompareRelationalStep(op, UNKNOWN, t).msgs == [NonOrderableMessage(op, UNKNOWN)]
    ensures CompareRelationalStep(op, t, UNKNOWN).msgs == (if Orderable(t) then [] else [NonOrderableMessage(op, Show(t))])
  {
  }

  /**
   * The two equality rules disagree on "null", and the two ordering rules
   * disagree on strings: the type a chain gets depends on which visitor
   * reaches it.
   */
  lemma VisitorsDisagree(op: string)
    ensures CompareEqualityStep(op, NULL, INTEGER).msgs == []
    ensures |LogicalRules.LogicEqualityStep(op, NULL, INTEGER).msgs| == 1
    ensures CompareRelationalStep(op, STRING, STRING).msgs == []
    ensures |LogicalRules.LogicRelationalStep(op, STRING, STRING).msgs| == 2
  {
  }
}
