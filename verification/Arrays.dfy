/** Readers of arrays whose elements are read one after the other (ireadable.hpp), and what ties them to layouts. */
module Arrays {
  import opened Bytes
  import opened Varint
  import opened Wire
  import opened WireLaws
  import opened Reader

  /** Reads `n` elements and appends them to `acc`. */
  function ParseMany<T>(parse: seq<byte> -> Parsed<T>, n: nat, s: seq<byte>, acc: seq<T>): Parsed<seq<T>>
    decreases n
  {
    if n == 0 then Ok(acc, s)
    else match parse(s)
      case Err => Err
      case Ok(x, rest) => ParseMany(parse, n - 1, rest, acc + [x])
  }

  function ParseArray<T>(parse: seq<byte> -> Parsed<T>, s: seq<byte>): Parsed<seq<T>> {
    match TakeInt32(s)
    case Err => Err
    case Ok(n, rest) => ParseMany(parse, ArrayCount(n), rest, [])
  }

  function ParseCompactArray<T>(parse: seq<byte> -> Parsed<T>, s: seq<byte>): Parsed<seq<T>> {
    match TakeUnsignedVarint(s)
    case Err => Err
    case Ok(n, rest) => ParseMany(parse, CompactCount(n), rest, [])
  }

  function Lift<T>(p: Parsed<T>, wire: T -> Value): Parsed<Value> {
    match p case Err => Err case Ok(x, rest) => Ok(wire(x), rest)
  }

  function Wires<T>(wire: T -> Value, xs: seq<T>): (vs: seq<Value>)
    ensures |vs| == |xs|
  {
    seq(|xs|, i requires 0 <= i < |xs| => wire(xs[i]))
  }

  function LiftSeq<T>(p: Parsed<seq<T>>, wire: T -> Value): Parsed<seq<Value>> {
    match p case Err => Err case Ok(xs, rest) => Ok(Wires(wire, xs), rest)
  }

  /** The reader `parse` reads exactly the layout `c`, and `wire` tells its results as values. */
  ghost predicate Follows<T(!new)>(c: Schema, parse: seq<byte> -> Parsed<T>, wire: T -> Value) {
    forall s :: Decode(c, s) == Lift(parse(s), wire)
  }

  lemma {:induction false} ManyFollow<T(!new)>(e: Schema, parse: seq<byte> -> Parsed<T>, wire: T -> Value, n: nat,
                                               s: seq<byte>, acc: seq<T>)
    requires Follows(e, parse, wire)
    ensures DecodeMany(e, n, s, Wires(wire, acc)) == LiftSeq(ParseMany(parse, n, s, acc), wire)
    decreases n
  {
    hide Decode;
    if n > 0 && parse(s).Ok? {
      var Ok(x, rest) := parse(s);
      assert Decode(e, s) == Ok(wire(x), rest);
      ManyFollow(e, parse, wire, n - 1, rest, acc + [x]);
      assert Wires(wire, acc + [x]) == Wires(wire, acc) + [wire(x)];
    }
  }

  lemma ArrayFollows<T(!new)>(e: Schema, parse: seq<byte> -> Parsed<T>, wire: T -> Value, s: seq<byte>)
    requires Follows(e, parse, wire)
    ensures Decode(Array(e), s) == Lift(ParseArray(parse, s), xs => Many(Wires(wire, xs)))
  {
    hide TakeInt;
    if TakeInt32(s).Ok? {
      var Ok(n, rest) := TakeInt32(s);
      ManyFollow(e, parse, wire, ArrayCount(n), rest, []);
      assert Wires(wire, []) == [];
    }
  }

  lemma CompactArrayFollows<T(!new)>(e: Schema, parse: seq<byte> -> Parsed<T>, wire: T -> Value, s: seq<byte>)
    requires Follows(e, parse, wire)
    ensures Decode(CompactArray(e), s) == Lift(ParseCompactArray(parse, s), xs => Many(Wires(wire, xs)))
  {
    hide TakeUnsignedVarint;
    if TakeUnsignedVarint(s).Ok? {
      var Ok(n, rest) := TakeUnsignedVarint(s);
      ManyFollow(e, parse, wire, CompactCount(n), rest, []);
      assert Wires(wire, []) == [];
    }
  }

  ghost predicate Injective<T(!new)>(wire: T -> Value) {
    forall x, y :: wire(x) == wire(y) ==> x == y
  }

  lemma WiresInjective<T(!new)>(wire: T -> Value, xs: seq<T>, ys: seq<T>)
    requires Injective(wire) && Wires(wire, xs) == Wires(wire, ys)
    ensures xs == ys
  {
    var vs, ws := Wires(wire, xs), Wires(wire, ys);
    forall i | 0 <= i < |xs| ensures xs[i] == ys[i] {
      assert vs[i] == wire(xs[i]) && ws[i] == wire(ys[i]);
    }
  }

  /** A reader that follows a layout gives back what was written, in any context, exactly when the layout can carry
      it. */
  lemma ParseRoundTrip<T(!new)>(c: Schema, parse: seq<byte> -> Parsed<T>, wire: T -> Value, x: T, t: seq<byte>)
    requires Follows(c, parse, wire) && Injective(wire)
    ensures parse(Encode(c, wire(x)) + t) == Ok(x, t) <==> Typed(c, wire(x))
  {
    var s := Encode(c, wire(x)) + t;
    assert Decode(c, s) == Lift(parse(s), wire);
    RoundTrip(c, wire(x), t);
  }
}
