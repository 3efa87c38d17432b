/**
 * UObject: the 32-bit object flag set and its operations, the root-set bit,
 * the pending-kill latch, and object identity from a global 32-bit counter.
 */
module UObject {
  import opened Optional

  const U32Modulus: nat := 0x1_0000_0000

  type U32 = x: nat | x < 0x1_0000_0000

  // ---- EObjectFlags -------------------------------------------------------

  type Flags = bv32

  const NoFlags: Flags := 0
  const Public: Flags := 1 << 0
  const Standalone: Flags := 1 << 1
  const MarkAsRootSet: Flags := 1 << 2
  const Transactional: Flags := 1 << 3
  const ClassDefaultObject: Flags := 1 << 4
  const ArchetypeObject: Flags := 1 << 5
  const Transient: Flags := 1 << 6
  const MarkAsNative: Flags := 1 << 7
  const LoadCompleted: Flags := 1 << 8
  const HasLoaded: Flags := 1 << 9
  const WasLoaded: Flags := 1 << 10

  /** The named flags other than RF_NoFlags, in declaration order. */
  const NamedFlags: seq<Flags> := [Public, Standalone, MarkAsRootSet, Transactional, ClassDefaultObject,
                                   ArchetypeObject, Transient, MarkAsNative, LoadCompleted, HasLoaded, WasLoaded]

  /** A bit position within the 32-bit word. */
  type BitIndex = bv5

  /** Bit `i` of `v`. */
  predicate Bit(v: Flags, i: BitIndex) {
    (v >> i) & 1 == 1
  }

  /** The named flags are bits 0 through 10, one each. */
  lemma NamedFlagsAreSingleBits()
    ensures |NamedFlags| == 11
    ensures forall k :: 0 <= k < 11 ==> NamedFlags[k] == (1 as bv32) << (k as bv5)
  {
  }

  /** Distinct named flags share no bit. */
  lemma NamedFlagsDisjoint()
    ensures forall a, b :: 0 <= a < b < |NamedFlags| ==> NamedFlags[a] & NamedFlags[b] == 0
  {
  }

  lemma BitOfAnd(a: Flags, b: Flags, i: BitIndex)
    ensures Bit(a & b, i) <==> Bit(a, i) && Bit(b, i)
  {
  }

  lemma BitOfOr(a: Flags, b: Flags, i: BitIndex)
    ensures Bit(a | b, i) <==> Bit(a, i) || Bit(b, i)
  {
  }

  lemma BitOfAndNot(a: Flags, b: Flags, i: BitIndex)
    ensures Bit(a & !b, i) <==> Bit(a, i) && !Bit(b, i)
  {
  }

  lemma BitOfNot(a: Flags, i: BitIndex)
    ensures Bit(!a, i) <==> !Bit(a, i)
  {
  }

  /** A non-zero word has a set bit (found by halving the search range). */
  lemma SomeBit(v: Flags) returns (i: BitIndex)
    requires v != 0
    ensures Bit(v, i)
  {
    var x := v;
    i := 0;
    if x & 0xFFFF == 0 { x := x >> 16; i := i + 16; }
    if x & 0xFF == 0 { x := x >> 8; i := i + 8; }
    if x & 0xF == 0 { x := x >> 4; i := i + 4; }
    if x & 0x3 == 0 { x := x >> 2; i := i + 2; }
    if x & 0x1 == 0 { x := x >> 1; i := i + 1; }
  }

  /** HasAnyFlags: some bit of `f` is set. */
  predicate HasAnyFlags(flags: Flags, f: Flags) {
    flags & f != NoFlags
  }

  /** HasAllFlags: every bit of `f` is set. */
  predicate HasAllFlags(flags: Flags, f: Flags) {
    flags & f == f
  }

  /** HasAnyFlags holds iff `flags` and `f` share a bit. */
  lemma HasAnyFlagsBitwise(flags: Flags, f: Flags)
    ensures HasAnyFlags(flags, f) <==> exists i: BitIndex :: Bit(f, i) && Bit(flags, i)
  {
    if HasAnyFlags(flags, f) {
      var i := SomeBit(flags & f);
      BitOfAnd(flags, f, i);
    } else {
      forall i: BitIndex ensures !(Bit(f, i) && Bit(flags, i)) {
        BitOfAnd(flags, f, i);
      }
    }
  }

  lemma AllFlagsGiveBits(flags: Flags, f: Flags)
    requires HasAllFlags(flags, f)
    ensures forall i: BitIndex :: Bit(f, i) ==> Bit(flags, i)
  {
    forall i: BitIndex | Bit(f, i) ensures Bit(flags, i) {
      BitOfAnd(flags, f, i);
    }
  }

  lemma MissingFlagGivesBit(flags: Flags, f: Flags)
    requires !HasAllFlags(flags, f)
    ensures exists i: BitIndex :: Bit(f, i) && !Bit(flags, i)
  {
    assert f & !flags != 0;
    var i := SomeBit(f & !flags);
    BitOfAnd(f, !flags, i);
    BitOfNot(flags, i);
  }

  /** HasAllFlags holds iff every bit of `f` is a bit of `flags`. */
  lemma HasAllFlagsBitwise(flags: Flags, f: Flags)
    ensures HasAllFlags(flags, f) <==> forall i: BitIndex :: Bit(f, i) ==> Bit(flags, i)
  {
    if HasAllFlags(flags, f) {
      AllFlagsGiveBits(flags, f);
    } else {
      MissingFlagGivesBit(flags, f);
    }
  }

  function SetFlags(flags: Flags, f: Flags): (r: Flags)
    ensures HasAllFlags(r, f)
  {
    flags | f
  }

  function ClearFlags(flags: Flags, f: Flags): (r: Flags)
    ensures !HasAnyFlags(r, f)
  {
    flags & !f
  }

  /** SetFlags keeps every bit that was set. */
  lemma SetFlagsKeepsSetBits(flags: Flags, f: Flags)
    ensures HasAllFlags(SetFlags(flags, f), flags)
  {
  }

  /** SetFlags touches no bit outside `f`. */
  lemma SetFlagsLeavesOthers(flags: Flags, f: Flags)
    ensures SetFlags(flags, f) & !f == flags & !f
  {
  }

  /** ClearFlags touches no bit outside `f`. */
  lemma ClearFlagsLeavesOthers(flags: Flags, f: Flags)
    ensures ClearFlags(flags, f) & !f == flags & !f
  {
  }

  /** ClearFlags sets no new bit. */
  lemma ClearFlagsOnlyClears(flags: Flags, f: Flags)
    ensures HasAllFlags(flags, ClearFlags(flags, f))
  {
  }

  /** Bit by bit, SetFlags is union. */
  lemma SetFlagsBitwise(flags: Flags, f: Flags)
    ensures forall i: BitIndex :: Bit(SetFlags(flags, f), i) <==> Bit(flags, i) || Bit(f, i)
  {
    forall i: BitIndex ensures Bit(SetFlags(flags, f), i) <==> Bit(flags, i) || Bit(f, i) {
      BitOfOr(flags, f, i);
    }
  }

  /** Bit by bit, ClearFlags is difference. */
  lemma ClearFlagsBitwise(flags: Flags, f: Flags)
    ensures forall i: BitIndex :: Bit(ClearFlags(flags, f), i) <==> Bit(flags, i) && !Bit(f, i)
  {
    forall i: BitIndex ensures Bit(ClearFlags(flags, f), i) <==> Bit(flags, i) && !Bit(f, i) {
      BitOfAndNot(flags, f, i);
    }
  }

  /** RF_NoFlags: never any, always all. */
  lemma NoFlagsQueries(flags: Flags)
    ensures !HasAnyFlags(flags, NoFlags)
    ensures HasAllFlags(flags, NoFlags)
  {
  }

  // ---- Objects --------------------------------------------------------------

  /** An object's state; `outer` is the outer object's unique id. */
  datatype Object = Object(uniqueId: U32, name: string, flags: Flags, outer: Option<U32>,
                           enabled: bool, pendingKill: bool)

  /** std::to_string on an unsigned value: decimal, no leading zeros. */
  function DecimalString(n: nat): (s: string)
    ensures |s| > 0
    ensures forall k :: 0 <= k < |s| ==> '0' <= s[k] <= '9'
    ensures n > 0 ==> s[0] != '0'
    decreases n
  {
    if n < 10 then [DigitChar(n)] else DecimalString(n / 10) + [DigitChar(n % 10)]
  }

  function DigitChar(d: nat): (c: char)
    requires d < 10
    ensures '0' <= c <= '9'
  {
    ('0' as int + d) as char
  }

  function DigitValue(c: char): (d: nat)
    requires '0' <= c <= '9'
    ensures d < 10 && DigitChar(d) == c
  {
    c as int - '0' as int
  }

  /** Reads a string of decimal digits back into a number. */
  function ParseDecimal(s: string): nat
    requires forall k :: 0 <= k < |s| ==> '0' <= s[k] <= '9'
    decreases |s|
  {
    if |s| == 0 then 0 else ParseDecimal(s[..|s| - 1]) * 10 + DigitValue(s[|s| - 1])
  }

  lemma {:induction false} ParseDecimalString(n: nat)
    ensures ParseDecimal(DecimalString(n)) == n
    decreases n
  {
    if n >= 10 {
      ParseDecimalString(n / 10);
      var s := DecimalString(n);
      assert s[..|s| - 1] == DecimalString(n / 10);
    }
  }

  const NamePrefix: string := "UObject_"

  /** The constructor's name: "UObject" then "_" and the decimal id. */
  function DefaultName(id: U32): string {
    "UObject" + "_" + DecimalString(id)
  }

  /** The default name spells out the id, so different ids give different names. */
  lemma DefaultNameEncodesId(a: U32, b: U32)
    ensures DefaultName(a)[..|NamePrefix|] == NamePrefix
    ensures ParseDecimal(DefaultName(a)[|NamePrefix|..]) == a
    ensures DefaultName(a) == DefaultName(b) ==> a == b
  {
    assert DefaultName(a)[|NamePrefix|..] == DecimalString(a);
    assert DefaultName(b)[|NamePrefix|..] == DecimalString(b);
    ParseDecimalString(a);
    ParseDecimalString(b);
  }

  /** nextUniqueId starts at 1. */
  const FirstUniqueId: U32 := 1

  /**
   * The constructor: take the counter's value as the id, then increment it
   * (a uint32, so it wraps).
   */
  function Construct(nextId: U32): (r: (Object, U32))
    ensures r.0.uniqueId == nextId
    ensures r.1 == (nextId + 1) % U32Modulus
    ensures r.1 == if nextId + 1 == U32Modulus then 0 else nextId + 1
    ensures r.0.name == NamePrefix + DecimalString(nextId)
    ensures r.0.flags == NoFlags && r.0.outer == None && r.0.enabled && !r.0.pendingKill
  {
    (Object(nextId, DefaultName(nextId), NoFlags, None, true, false),
     if nextId + 1 == U32Modulus then 0 else nextId + 1)
  }

  /** `n` constructions in a row, with the counter afterwards. */
  function ConstructMany(nextId: U32, n: nat): (r: (seq<Object>, U32))
    ensures |r.0| == n
    decreases n
  {
    if n == 0 then ([], nextId)
    else
      var first := Construct(nextId);
      var rest := ConstructMany(first.1, n - 1);
      ([first.0] + rest.0, rest.1)
  }

  /** The counter after `n` constructions that do not pass the wrap point. */
  lemma {:induction false} ConstructManyCounter(nextId: U32, n: nat)
    requires nextId + n <= U32Modulus
    ensures ConstructMany(nextId, n).1 == (nextId + n) % U32Modulus
    decreases n
  {
    if n > 0 {
      var first := Construct(nextId);
      if n > 1 {
        assert first.1 == nextId + 1;
        ConstructManyCounter(first.1, n - 1);
      } else {
        assert ConstructMany(first.1, 0).1 == first.1;
      }
    }
  }

  /** Until the counter wraps, the `i`-th of `n` objects is the one made with id `nextId + i`. */
  lemma {:induction false} ConstructManyAt(nextId: U32, n: nat, i: nat)
    requires nextId + n <= U32Modulus && i < n
    ensures ConstructMany(nextId, n).0[i] == Construct(nextId + i).0
    decreases i
  {
    if i > 0 {
      var next := Construct(nextId).1;
      assert next == nextId + 1;
      ConstructManyAt(next, n - 1, i - 1);
    }
  }

  /** Until the counter wraps, ids are consecutive and so strictly increasing. */
  lemma ConstructManyIds(nextId: U32, n: nat)
    requires nextId + n <= U32Modulus
    ensures forall i :: 0 <= i < n ==> ConstructMany(nextId, n).0[i].uniqueId == nextId + i
    ensures ConstructMany(nextId, n).1 == (nextId + n) % U32Modulus
  {
    ConstructManyCounter(nextId, n);
    forall i | 0 <= i < n
      ensures ConstructMany(nextId, n).0[i].uniqueId == nextId + i
    {
      ConstructManyAt(nextId, n, i);
    }
  }

  lemma ConstructManyIncreasing(nextId: U32, n: nat)
    requires nextId + n <= U32Modulus
    ensures forall i, j :: 0 <= i < j < n ==>
              ConstructMany(nextId, n).0[i].uniqueId < ConstructMany(nextId, n).0[j].uniqueId
  {
    ConstructManyIds(nextId, n);
  }

  /** After 2^32 - 1 objects the counter wraps to 0, so ids repeat eventually. */
  lemma CounterWraps()
    ensures Construct(U32Modulus - 1).1 == 0
  {
  }

  // ---- Member functions -------------------------------------------------------

  predicate IsRootSet(o: Object) {
    HasAnyFlags(o.flags, MarkAsRootSet)
  }

  function AddToRoot(o: Object): (r: Object)
    ensures IsRootSet(r)
    ensures r.flags & !MarkAsRootSet == o.flags & !MarkAsRootSet
    ensures r == o.(flags := r.flags)
  {
    o.(flags := SetFlags(o.flags, MarkAsRootSet))
  }

  function RemoveFromRoot(o: Object): (r: Object)
    ensures !IsRootSet(r)
    ensures r.flags & !MarkAsRootSet == o.flags & !MarkAsRootSet
    ensures r == o.(flags := r.flags)
  {
    o.(flags := ClearFlags(o.flags, MarkAsRootSet))
  }

  predicate IsValid(o: Object) {
    !o.pendingKill
  }

  /** operator==: identity is the unique id alone. */
  predicate SameObject(a: Object, b: Object) {
    a.uniqueId == b.uniqueId
  }

  /** The mutators an object offers. */
  datatype Op =
    | SetName(name: string)
    | SetObjectFlags(toSet: Flags)
    | ClearObjectFlags(toClear: Flags)
    | AddRoot
    | RemoveRoot
    | MarkPendingKill
    | SetOuter(outer: Option<U32>)
    | SetEnabled(enabled: bool)

  function Apply(o: Object, op: Op): Object {
    match op
    case SetName(n) => o.(name := n)
    case SetObjectFlags(f) => o.(flags := SetFlags(o.flags, f))
    case ClearObjectFlags(f) => o.(flags := ClearFlags(o.flags, f))
    case AddRoot => AddToRoot(o)
    case RemoveRoot => RemoveFromRoot(o)
    case MarkPendingKill => o.(pendingKill := true)
    case SetOuter(p) => o.(outer := p)
    case SetEnabled(e) => o.(enabled := e)
  }

  function ApplyAll(o: Object, ops: seq<Op>): Object
    decreases |ops|
  {
    if |ops| == 0 then o else ApplyAll(Apply(o, ops[0]), ops[1..])
  }

  /**
   * Once marked pending kill, an object stays invalid whatever is done to
   * it; and no operation changes its id, so it stays equal to itself.
   */
  lemma {:induction false} PendingKillIsPermanent(o: Object, ops: seq<Op>)
    ensures ApplyAll(o, ops).uniqueId == o.uniqueId
    ensures !IsValid(o) ==> !IsValid(ApplyAll(o, ops))
    ensures MarkPendingKill in ops ==> !IsValid(ApplyAll(o, ops))
    decreases |ops|
  {
    if |ops| > 0 {
      PendingKillIsPermanent(Apply(o, ops[0]), ops[1..]);
      if ops[0] != MarkPendingKill {
        assert MarkPendingKill in ops ==> MarkPendingKill in ops[1..];
      }
    }
  }

  /** Equality ignores name, flags and state: a renamed, flagged copy is still equal. */
  lemma EqualityIsIdentity(o: Object, ops: seq<Op>)
    ensures SameObject(o, ApplyAll(o, ops))
  {
    PendingKillIsPermanent(o, ops);
  }
}
