/** Small helpers of the importer: the unsigned 32-bit integers the records
    carry, the host's instance glyphs and `AsInstanceIcon`, and the
    `ForEach`/`Flatten` sequence extensions. */
module Utils {
  import opened Wrappers

  /** C#'s `uint`. */
  type UInt32 = n: int | 0 <= n < 0x1_0000_0000

  /** An unchecked `(uint)` cast of an int: two's-complement wrap-around. */
  function ToUInt32(n: int): UInt32 {
    n % 0x1_0000_0000
  }

  /** The host's map-link marker glyph (`SeIconChar.LinkMarker`). */
  const LinkMarker: char := '\U{E0BB}'

  /** The host's glyphs for instances one and nine (`SeIconChar.Instance1`,
      `SeIconChar.Instance9`); the glyphs for two to eight lie between them. */
  const Instance1: char := '\U{E0B1}'
  const Instance9: char := '\U{E0B9}'

  predicate IsInstanceGlyph(c: char) {
    Instance1 <= c <= Instance9
  }

  /** `AsInstanceIcon`: the glyph of instances 1 to 9, nothing otherwise. */
  function AsInstanceIcon(instance: Option<UInt32>): (r: string)
    ensures |r| <= 1
    ensures r != [] <==> instance.Some? && 1 <= instance.value <= 9
    ensures r != [] ==> IsInstanceGlyph(r[0]) && r[0] as int - Instance1 as int == instance.value - 1
  {
    if instance.Some? && 1 <= instance.value <= 9
    then [(Instance1 as int + instance.value - 1) as char]
    else ""
  }

  /** Different instances get different glyphs. */
  lemma {:induction false} AsInstanceIconInjective(m: UInt32, n: UInt32)
    requires 1 <= m <= 9 && 1 <= n <= 9 && m != n
    ensures AsInstanceIcon(Some(m)) != AsInstanceIcon(Some(n))
  {
  }

  /** `ForEach`: runs the action on every element, in order, and hands the
      elements back unchanged; `effects` records the action's results. */
  method ForEach<T, E>(source: seq<T>, action: T -> E) returns (values: seq<T>, effects: seq<E>)
    ensures values == source
    ensures |effects| == |source|
    ensures forall i :: 0 <= i < |source| ==> effects[i] == action(source[i])
  {
    values := [];
    effects := [];
    for i := 0 to |source|
      invariant values == source[..i]
      invariant |effects| == i
      invariant forall j :: 0 <= j < i ==> effects[j] == action(source[j])
    {
      effects := effects + [action(source[i])];
      values := values + [source[i]];
    }
  }

  /** `Flatten`: the inner sequences, one after another. */
  function Flatten<T>(ss: seq<seq<T>>): (r: seq<T>)
    ensures forall s, x :: s in ss && x in s ==> x in r
  {
    if ss == [] then [] else ss[0] + Flatten(ss[1..])
  }

  lemma {:induction false} FlattenConcat<T>(a: seq<seq<T>>, b: seq<seq<T>>)
    ensures Flatten(a + b) == Flatten(a) + Flatten(b)
  {
    if a == [] {
      assert a + b == b;
    } else {
      assert (a + b)[1..] == a[1..] + b;
      FlattenConcat(a[1..], b);
    }
  }
}
