/**
 Reading a stream item by item until the first failure: a log is scanned for batches this way, a connection for
 requests, and a client's input for responses.  What is proved here holds for every reader whose success depends only on
 the bytes it consumes.
 */
module Scanning {
  import opened Bytes
  import opened Wire
  import opened WireLaws
  import opened Arrays

  /** Every success takes bytes away from the front of the input. */
  ghost predicate Consumes<T(!new)>(parse: seq<byte> -> Parsed<T>) {
    forall s :: parse(s).Ok? ==> |parse(s).rest| < |s| && IsSuffix(parse(s).rest, s)
  }

  /** If `used` was read with `r` left over, it is read the same whatever comes next. */
  ghost predicate Local<T(!new)>(parse: seq<byte> -> Parsed<T>) {
    forall used, r, t :: parse(used + r).Ok? && parse(used + r).rest == r ==>
      parse(used + t) == Ok(parse(used + r).value, t)
  }

  /** The items at the front of `s`, up to the first bytes that are not a whole item. */
  function ScanWith<T(!new)>(parse: seq<byte> -> Parsed<T>, s: seq<byte>): seq<T>
    requires Consumes(parse)
    decreases |s|
  {
    match parse(s)
    case Err => []
    case Ok(x, rest) => [x] + ScanWith(parse, rest)
  }

  /** The bytes of `s` that the scan does not turn into items. */
  function TailWith<T(!new)>(parse: seq<byte> -> Parsed<T>, s: seq<byte>): seq<byte>
    requires Consumes(parse)
    decreases |s|
  {
    match parse(s)
    case Err => s
    case Ok(_, rest) => TailWith(parse, rest)
  }

  /** The offset in `s` at which its first `i` items end. */
  function EndOf<T(!new)>(parse: seq<byte> -> Parsed<T>, s: seq<byte>, i: nat): nat
    requires Consumes(parse) && i <= |ScanWith(parse, s)|
    decreases i
  {
    if i == 0 then 0 else |s| - |parse(s).rest| + EndOf(parse, parse(s).rest, i - 1)
  }

  /** A reader that follows a layout is local. */
  lemma FollowerIsLocal<T(!new)>(c: Schema, parse: seq<byte> -> Parsed<T>, wire: T -> Value)
    requires Follows(c, parse, wire) && Injective(wire)
    ensures Local(parse)
  {
    forall used, r, t | parse(used + r).Ok? && parse(used + r).rest == r
      ensures parse(used + t) == Ok(parse(used + r).value, t)
    {
      assert Decode(c, used + r) == Lift(parse(used + r), wire);
      DecodeLocal(c, used, r, t);
      assert Decode(c, used + t) == Lift(parse(used + t), wire);
    }
  }

  /** Splits `s` where `parse` stops. */
  lemma FrontOf<T(!new)>(parse: seq<byte> -> Parsed<T>, s: seq<byte>) returns (used: seq<byte>)
    requires Consumes(parse) && parse(s).Ok?
    ensures used + parse(s).rest == s && used == s[..|s| - |parse(s).rest|] && used != []
  {
    used := s[..|s| - |parse(s).rest|];
  }

  lemma ReadFront<T(!new)>(parse: seq<byte> -> Parsed<T>, s: seq<byte>, used: seq<byte>, t: seq<byte>)
    requires Local(parse) && parse(s).Ok? && used + parse(s).rest == s
    ensures parse(used + t) == Ok(parse(s).value, t)
  {
    assert parse(used + parse(s).rest).rest == parse(s).rest;
  }

  /** Bytes that follow an item do not change how it is read. */
  lemma ExtendRead<T(!new)>(parse: seq<byte> -> Parsed<T>, p: seq<byte>, t: seq<byte>)
    requires Consumes(parse) && Local(parse) && parse(p).Ok?
    ensures parse(p + t) == Ok(parse(p).value, parse(p).rest + t)
  {
    var used := FrontOf(parse, p);
    ReadFront(parse, p, used, parse(p).rest + t);
    assert used + (parse(p).rest + t) == p + t;
  }

  /** An item is not recognised before its last byte is there. */
  lemma PartFails<T(!new)>(parse: seq<byte> -> Parsed<T>, s: seq<byte>, k: nat)
    requires Consumes(parse) && Local(parse) && parse(s).Ok? && k < |s| - |parse(s).rest|
    ensures parse(s[..k]).Err?
  {
    hide Consumes, Local;
    assert s[..k] + s[k..] == s;
    if parse(s[..k]).Ok? {
      ExtendRead(parse, s[..k], s[k..]);
    }
  }

  /** Appending anything leaves what was found before at the front of what is found after. */
  lemma {:induction false} AppendScan<T(!new)>(parse: seq<byte> -> Parsed<T>, s: seq<byte>, t: seq<byte>)
    requires Consumes(parse) && Local(parse)
    ensures ScanWith(parse, s) <= ScanWith(parse, s + t)
    decreases |s|
  {
    hide Consumes, Local;
    if parse(s).Ok? {
      var rest := parse(s).rest;
      var used := FrontOf(parse, s);
      ReadFront(parse, s, used, rest + t);
      assert used + (rest + t) == s + t;
      AppendScan(parse, rest, t);
    }
  }

  /** Cutting after `k` bytes keeps exactly the items that end at or before the cut. */
  lemma {:induction false} CutScan<T(!new)>(parse: seq<byte> -> Parsed<T>, s: seq<byte>, k: nat)
    requires Consumes(parse) && Local(parse) && k <= |s|
    ensures var m := |ScanWith(parse, s[..k])|;
      && m <= |ScanWith(parse, s)| && ScanWith(parse, s[..k]) == ScanWith(parse, s)[..m]
      && forall i :: 0 <= i <= |ScanWith(parse, s)| ==> (EndOf(parse, s, i) <= k <==> i <= m)
    decreases |s|
  {
    hide Consumes, Local;
    if parse(s).Err? {
      AppendScan(parse, s[..k], s[k..]);
      assert s[..k] + s[k..] == s;
    } else {
      var Ok(x, rest) := parse(s);
      var used := FrontOf(parse, s);
      if k < |used| {
        PartFails(parse, s, k);
        forall i | 0 < i <= |ScanWith(parse, s)| ensures EndOf(parse, s, i) > k {
          assert EndOf(parse, s, i) == |used| + EndOf(parse, rest, i - 1);
        }
      } else {
        var part := rest[..k - |used|];
        assert used + part == s[..k];
        ReadFront(parse, s, used, part);
        CutScan(parse, rest, k - |used|);
        var n := |ScanWith(parse, part)|;
        assert ScanWith(parse, s)[..n + 1] == [x] + ScanWith(parse, rest)[..n];
        forall i | 0 <= i <= |ScanWith(parse, s)| ensures EndOf(parse, s, i) <= k <==> i <= n + 1 {
          if i > 0 {
            assert EndOf(parse, s, i) == |used| + EndOf(parse, rest, i - 1);
          }
        }
      }
    }
  }

  // ---- Streams that were written ----

  function EncodeAll<T>(encode: T -> seq<byte>, xs: seq<T>): seq<byte> {
    if xs == [] then [] else encode(xs[0]) + EncodeAll(encode, xs[1..])
  }

  lemma {:induction false} EncodeAllAppend<T>(encode: T -> seq<byte>, xs: seq<T>, x: T)
    ensures EncodeAll(encode, xs + [x]) == EncodeAll(encode, xs) + encode(x)
    decreases |xs|
  {
    if xs == [] {
      assert encode(x) + [] == encode(x);
    } else {
      EncodeAllAppend(encode, xs[1..], x);
      assert (xs + [x])[1..] == xs[1..] + [x];
    }
  }

  lemma {:induction false} EncodeAllAround<T>(encode: T -> seq<byte>, xs: seq<T>, i: nat)
    requires i < |xs|
    ensures EncodeAll(encode, xs) ==
      EncodeAll(encode, xs[..i]) + (encode(xs[i]) + EncodeAll(encode, xs[i + 1..]))
    decreases i
  {
    if i > 0 {
      EncodeAllAround(encode, xs[1..], i - 1);
      assert xs[..i][1..] == xs[1..][..i - 1] && xs[1..][i..] == xs[i + 1..];
    }
  }

  /** Whatever follows it, `x` is read back as it was written. */
  ghost predicate Survives<T(!new)>(parse: seq<byte> -> Parsed<T>, encode: T -> seq<byte>, x: T) {
    forall t :: parse(encode(x) + t) == Ok(x, t)
  }

  ghost predicate AllSurvive<T(!new)>(parse: seq<byte> -> Parsed<T>, encode: T -> seq<byte>, xs: seq<T>) {
    forall i | 0 <= i < |xs| :: Survives(parse, encode, xs[i])
  }

  lemma ReadWritten<T(!new)>(parse: seq<byte> -> Parsed<T>, encode: T -> seq<byte>, xs: seq<T>, t: seq<byte>)
    requires xs != [] && AllSurvive(parse, encode, xs)
    ensures AllSurvive(parse, encode, xs[1..])
    ensures EncodeAll(encode, xs) + t == encode(xs[0]) + (EncodeAll(encode, xs[1..]) + t)
    ensures parse(EncodeAll(encode, xs) + t) == Ok(xs[0], EncodeAll(encode, xs[1..]) + t)
  {
    assert Survives(parse, encode, xs[0]);
    hide Survives;
    assert (encode(xs[0]) + EncodeAll(encode, xs[1..])) + t == encode(xs[0]) + (EncodeAll(encode, xs[1..]) + t);
    SurvivesBefore(parse, encode, xs[0], EncodeAll(encode, xs[1..]) + t);
  }

  lemma SurvivesBefore<T(!new)>(parse: seq<byte> -> Parsed<T>, encode: T -> seq<byte>, x: T, t: seq<byte>)
    requires Survives(parse, encode, x)
    ensures parse(encode(x) + t) == Ok(x, t)
  {
  }

  /** What was written is found again, followed by what is found in the bytes after it. */
  lemma {:induction false} WrittenScan<T(!new)>(parse: seq<byte> -> Parsed<T>, encode: T -> seq<byte>, xs: seq<T>,
                                                t: seq<byte>)
    requires Consumes(parse) && AllSurvive(parse, encode, xs)
    ensures ScanWith(parse, EncodeAll(encode, xs) + t) == xs + ScanWith(parse, t)
    ensures TailWith(parse, EncodeAll(encode, xs) + t) == TailWith(parse, t)
    decreases |xs|
  {
    hide Consumes, AllSurvive;
    if xs == [] {
      assert EncodeAll(encode, xs) + t == t;
    } else {
      ReadWritten(parse, encode, xs, t);
      WrittenScan(parse, encode, xs[1..], t);
      assert xs == [xs[0]] + xs[1..];
    }
  }

  lemma NothingToScan<T(!new)>(parse: seq<byte> -> Parsed<T>)
    requires Consumes(parse)
    ensures ScanWith(parse, []) == []
  {
    if parse([]).Ok? {
      var used := FrontOf(parse, []);
    }
  }

  lemma {:induction false} WrittenEnd<T(!new)>(parse: seq<byte> -> Parsed<T>, encode: T -> seq<byte>, xs: seq<T>,
                                               t: seq<byte>, i: nat)
    requires Consumes(parse) && AllSurvive(parse, encode, xs) && i <= |xs|
    ensures ScanWith(parse, EncodeAll(encode, xs) + t) == xs + ScanWith(parse, t)
    ensures EndOf(parse, EncodeAll(encode, xs) + t, i) == |EncodeAll(encode, xs[..i])|
    decreases |xs|
  {
    hide Consumes, AllSurvive;
    WrittenScan(parse, encode, xs, t);
    if i > 0 {
      ReadWritten(parse, encode, xs, t);
      WrittenEnd(parse, encode, xs[1..], t, i - 1);
      assert xs[..i][1..] == xs[1..][..i - 1];
    }
  }

  /** Recovery: cutting a written stream anywhere gives back exactly the items that end at or before the cut. */
  lemma TornScan<T(!new)>(parse: seq<byte> -> Parsed<T>, encode: T -> seq<byte>, xs: seq<T>, k: nat)
    requires Consumes(parse) && Local(parse) && AllSurvive(parse, encode, xs) && k <= |EncodeAll(encode, xs)|
    ensures var m := |ScanWith(parse, EncodeAll(encode, xs)[..k])|;
      && m <= |xs| && ScanWith(parse, EncodeAll(encode, xs)[..k]) == xs[..m]
      && forall i :: 0 <= i <= |xs| ==> (|EncodeAll(encode, xs[..i])| <= k <==> i <= m)
  {
    var s := EncodeAll(encode, xs);
    WrittenScan(parse, encode, xs, []);
    NothingToScan(parse);
    assert s + [] == s && xs + [] == xs;
    CutScan(parse, s, k);
    forall i | 0 <= i <= |xs| ensures EndOf(parse, s, i) == |EncodeAll(encode, xs[..i])| {
      WrittenEnd(parse, encode, xs, [], i);
    }
  }

  // ---- Writing a scanned stream again ----

  predicate CanonicalWith<T(!new)>(parse: seq<byte> -> Parsed<T>, canonical: seq<byte> -> bool, s: seq<byte>)
    requires Consumes(parse)
    decreases |s|
  {
    match parse(s)
    case Err => true
    case Ok(_, rest) => canonical(s) && CanonicalWith(parse, canonical, rest)
  }

  ghost predicate RewritesEach<T(!new)>(parse: seq<byte> -> Parsed<T>, encode: T -> seq<byte>,
                                        canonical: seq<byte> -> bool) {
    forall s :: parse(s).Ok? ==> Rewrites(encode(parse(s).value), parse(s).rest, s, canonical(s))
  }

  /** If writing an item again is never longer and exact when the item was canonical, the same holds of whole
      streams. */
  lemma {:induction false} RewriteScan<T(!new)>(parse: seq<byte> -> Parsed<T>, encode: T -> seq<byte>,
                                                canonical: seq<byte> -> bool, s: seq<byte>)
    requires Consumes(parse) && RewritesEach(parse, encode, canonical)
    ensures Rewrites(EncodeAll(encode, ScanWith(parse, s)), TailWith(parse, s), s, CanonicalWith(parse, canonical, s))
    decreases |s|
  {
    hide Rewrites;
    if parse(s).Ok? {
      var Ok(x, rest) := parse(s);
      RewriteScan(parse, encode, canonical, rest);
      assert ScanWith(parse, s)[1..] == ScanWith(parse, rest);
      RewritesThen(encode(x), EncodeAll(encode, ScanWith(parse, rest)), s, rest, TailWith(parse, s),
                   canonical(s), CanonicalWith(parse, canonical, rest));
    } else {
      RewritesNothing(s);
    }
  }
}
