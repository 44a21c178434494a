/**
 * The storage namespaces config objects live under, each with the signed
 * 16-bit number that identifies it.
 */
module Namespaces {
  import opened Common

  /** The enumeration's underlying integer type. */
  newtype int16 = x: int | -0x8000 <= x < 0x8000

  datatype Namespace = UserProfile | Contacts | ConvoInfoVolatile | ClosedGroupInfo

  /** The number a namespace is stored under. */
  function Value(ns: Namespace): (v: int16)
    ensures 2 <= v <= 11
    ensures ns == UserProfile <==> v == 2
    ensures ns == Contacts <==> v == 3
    ensures ns == ConvoInfoVolatile <==> v == 4
    ensures ns == ClosedGroupInfo <==> v == 11
  {
    match ns
    case UserProfile => 2
    case Contacts => 3
    case ConvoInfoVolatile => 4
    case ClosedGroupInfo => 11
  }

  /** The namespace stored under `v`, if there is one. */
  function FromValue(v: int16): (r: Option<Namespace>)
    ensures r.Some? ==> Value(r.value) == v
    ensures r.None? <==> forall ns :: Value(ns) != v
  {
    if v == 2 then Some(UserProfile)
    else if v == 3 then Some(Contacts)
    else if v == 4 then Some(ConvoInfoVolatile)
    else if v == 11 then Some(ClosedGroupInfo)
    else
      assert forall ns :: Value(ns) != v;
      None
  }

  /** Different namespaces have different numbers, so a number identifies its namespace. */
  lemma ValueInjective(a: Namespace, b: Namespace)
    ensures Value(a) == Value(b) ==> a == b
  {
  }

  /** Reading back the number of a namespace gives that namespace. */
  lemma ValueRoundTrip(ns: Namespace)
    ensures FromValue(Value(ns)) == Some(ns)
  {
    ValueInjective(ns, FromValue(Value(ns)).value);
  }
}
