/**
 * UClass reflection: classes with a superclass pointer, the IsChildOf walk
 * up the chain, and the name-keyed static class registry. Classes live in
 * an arena; a class pointer is its arena index and a null pointer is None.
 */
module UClass {
  import opened Optional

  type ClassRef = nat

  datatype ClassInfo = ClassInfo(name: string, superClass: Option<ClassRef>)

  /** Every superclass is an existing class made before its subclass. */
  ghost predicate WellFormed(classes: seq<ClassInfo>) {
    forall i :: 0 <= i < |classes| && classes[i].superClass.Some? ==> classes[i].superClass.value < i
  }

  // ---- IsChildOf ------------------------------------------------------------

  /** The chain walked from `c`: c, its superclass, and so on to a root. */
  function Chain(classes: seq<ClassInfo>, c: ClassRef): (r: seq<ClassRef>)
    requires WellFormed(classes) && c < |classes|
    ensures |r| > 0 && r[0] == c
    ensures forall k :: 0 <= k < |r| ==> r[k] < |classes| && r[k] <= c
    ensures classes[r[|r| - 1]].superClass.None?
    decreases c
  {
    match classes[c].superClass
    case None => [c]
    case Some(s) => [c] + Chain(classes, s)
  }

  /** The loop of IsChildOf, walking the superclass pointers. */
  method IsChildOf(classes: seq<ClassInfo>, c: ClassRef, other: Option<ClassRef>) returns (r: bool)
    requires WellFormed(classes) && c < |classes|
    ensures r <==> other.Some? && other.value in Chain(classes, c)
  {
    if other.None? {
      return false;
    }
    var current: Option<ClassRef> := Some(c);
    while current.Some?
      invariant current.Some? ==> current.value < |classes|
      invariant other.value in Chain(classes, c) <==> current.Some? && other.value in Chain(classes, current.value)
      decreases if current.Some? then current.value + 1 else 0
    {
      if current.value == other.value {
        return true;
      }
      current := classes[current.value].superClass;
    }
    return false;
  }

  /** IsChildOf(null) is false and IsChildOf(self) is true. */
  lemma ChainReflexive(classes: seq<ClassInfo>, c: ClassRef)
    requires WellFormed(classes) && c < |classes|
    ensures c in Chain(classes, c)
  {
  }

  /** Everything on the chain of a chain member is on the original chain. */
  lemma {:induction false} ChainOfMemberIsSuffix(classes: seq<ClassInfo>, c: ClassRef, b: ClassRef)
    requires WellFormed(classes) && c < |classes| && b in Chain(classes, c)
    ensures forall x :: x in Chain(classes, b) ==> x in Chain(classes, c)
    decreases c
  {
    if b != c {
      var s := classes[c].superClass.value;
      ChainOfMemberIsSuffix(classes, s, b);
    }
  }

  /** IsChildOf is transitive. */
  lemma ChainTransitive(classes: seq<ClassInfo>, a: ClassRef, b: ClassRef, c: ClassRef)
    requires WellFormed(classes) && a < |classes| && b < |classes|
    requires b in Chain(classes, a) && c in Chain(classes, b)
    ensures c in Chain(classes, a)
  {
    ChainOfMemberIsSuffix(classes, a, b);
  }

  /** A class is never a child of a class made after it. */
  lemma NotChildOfLater(classes: seq<ClassInfo>, c: ClassRef, later: ClassRef)
    requires WellFormed(classes) && c < later < |classes|
    ensures later !in Chain(classes, c)
  {
  }

  // ---- Registry -------------------------------------------------------------

  datatype Reflection = Reflection(classes: seq<ClassInfo>, registry: map<string, ClassRef>)

  const Empty := Reflection([], map[])

  /** Registry entries point at live arena classes of that very name. */
  ghost predicate Consistent(st: Reflection) {
    && WellFormed(st.classes)
    && forall n :: n in st.registry ==>
         st.registry[n] < |st.classes| && st.classes[st.registry[n]].name == n
  }

  /** RegisterClass: a null class is ignored, otherwise its name is bound to it. */
  function RegisterClass(st: Reflection, c: Option<ClassRef>): (r: Reflection)
    requires c.Some? ==> c.value < |st.classes|
    ensures c.None? ==> r == st
    ensures c.Some? ==> r.registry == st.registry[st.classes[c.value].name := c.value]
    ensures r.classes == st.classes
  {
    match c
    case None => st
    case Some(k) => st.(registry := st.registry[st.classes[k].name := k])
  }

  /**
   * The constructor: a new class with the given name and superclass,
   * registered at once (overwriting an earlier class of the same name).
   */
  function Construct(st: Reflection, name: string, superClass: Option<ClassRef>): (r: (Reflection, ClassRef))
    requires superClass.Some? ==> superClass.value < |st.classes|
    ensures r.1 == |st.classes| && r.0.classes == st.classes + [ClassInfo(name, superClass)]
    ensures FindClass(r.0, name) == Some(r.1)
    ensures forall n :: n != name ==> FindClass(r.0, n) == FindClass(st, n)
  {
    var k := |st.classes|;
    var st1 := st.(classes := st.classes + [ClassInfo(name, superClass)]);
    (RegisterClass(st1, Some(k)), k)
  }

  /** The destructor: drop the registry entry only if it still names this class. */
  function Destroy(st: Reflection, c: ClassRef): (r: Reflection)
    requires c < |st.classes|
    ensures var n := st.classes[c].name;
            && (n in st.registry && st.registry[n] == c ==> FindClass(r, n).None?)
            && (!(n in st.registry && st.registry[n] == c) ==> r == st)
            && (forall m :: m != n ==> FindClass(r, m) == FindClass(st, m))
  {
    var n := st.classes[c].name;
    if n in st.registry && st.registry[n] == c then st.(registry := st.registry - {n}) else st
  }

  function FindClass(st: Reflection, name: string): (r: Option<ClassRef>)
    ensures r.Some? <==> name in st.registry
    ensures r.Some? ==> r.value == st.registry[name]
  {
    if name in st.registry then Some(st.registry[name]) else None
  }

  /** operator==: classes compare by name alone. */
  predicate SameClass(a: ClassInfo, b: ClassInfo) {
    a.name == b.name
  }

  /** Two distinct classes sharing a name are equal under operator==. */
  lemma EqualityIgnoresHierarchy(name: string, s1: Option<ClassRef>, s2: Option<ClassRef>)
    ensures SameClass(ClassInfo(name, s1), ClassInfo(name, s2))
  {
  }

  // ---- Histories ------------------------------------------------------------

  datatype RegistryOp =
    | MakeClass(name: string, superClass: Option<ClassRef>)
    | Register(target: Option<ClassRef>)
    | DestroyClass(victim: ClassRef)

  /** An operation whose references are valid (others are skipped). */
  function Step(st: Reflection, op: RegistryOp): Reflection {
    match op
    case MakeClass(n, s) => if s.Some? && s.value >= |st.classes| then st else Construct(st, n, s).0
    case Register(c) => if c.Some? && c.value >= |st.classes| then st else RegisterClass(st, c)
    case DestroyClass(c) => if c >= |st.classes| then st else Destroy(st, c)
  }

  function Run(st: Reflection, ops: seq<RegistryOp>): Reflection
    decreases |ops|
  {
    if |ops| == 0 then st else Run(Step(st, ops[0]), ops[1..])
  }

  lemma StepConsistent(st: Reflection, op: RegistryOp)
    requires Consistent(st)
    ensures Consistent(Step(st, op))
    ensures |Step(st, op).classes| >= |st.classes|
    ensures Step(st, op).classes[..|st.classes|] == st.classes
  {
  }

  /**
   * Whatever happens, every registry entry names a class of that name, so
   * FindClass is null for a name no class was ever made with.
   */
  lemma {:induction false} RunConsistent(st: Reflection, ops: seq<RegistryOp>, name: string)
    requires Consistent(st)
    ensures Consistent(Run(st, ops))
    ensures (forall i :: 0 <= i < |Run(st, ops).classes| ==> Run(st, ops).classes[i].name != name)
            ==> FindClass(Run(st, ops), name).None?
    decreases |ops|
  {
    if |ops| > 0 {
      StepConsistent(st, ops[0]);
      RunConsistent(Step(st, ops[0]), ops[1..], name);
    }
  }

  /**
   * Two classes with one name: the later one owns the entry, and destroying
   * the earlier one does not unregister it.
   */
  lemma LaterClassSurvivesEarlierDestruction(st: Reflection, name: string)
    ensures var (st1, first) := Construct(st, name, None);
            var (st2, second) := Construct(st1, name, None);
            FindClass(Destroy(st2, first), name) == Some(second)
  {
  }
}
