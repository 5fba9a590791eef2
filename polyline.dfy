/**
 * The geometry decoder of the OSRM router: Google's encoded polyline format
 * (variable-length base-32 chunks offset by 63, zig-zag signed deltas, two
 * deltas per point) with a configurable precision.
 *
 * The specification functions decode on unbounded integers: `DecodeRaw`
 * gives the running latitude/longitude accumulators before they are scaled.
 * `Decode` is the source's loop, proved against them.
 */
module PolylineCodec {
  import opened Geo

  /** A decoded point before scaling: the two running integer accumulators. */
  datatype RawPoint = RawPoint(lat: int, lng: int)

  /**
   * `b & 0x1f` for `b = charCodeAt(i) - 63`: the low five bits, which for a
   * two's-complement `b` is `b` modulo 32 even when `b` is negative. Past the
   * end `charCodeAt` gives NaN, and `NaN & 0x1f` is 0.
   */
  function Chunk(s: string, i: nat): (c: nat)
    ensures c < 32
  {
    if i < |s| then ((s[i] as int) - 63) % 32 else 0
  }

  /** `b >= 0x20`: the chunk at `i` is followed by another one. NaN compares false. */
  predicate Continues(s: string, i: nat)
  {
    i < |s| && (s[i] as int) - 63 >= 32
  }

  /**
   * One unsigned value read from index `i` by the source's do-while loop:
   * the chunks in little-endian base 32, and the index after the last chunk.
   * The index always moves forward, and moves at most one place past the end.
   */
  function ReadVarint(s: string, i: nat): (r: (nat, nat))
    ensures i < r.1
    ensures i <= |s| ==> r.1 <= |s| + 1
    ensures i >= |s| ==> r == (0, i + 1)
    decreases |s| - i
  {
    if Continues(s, i) then
      var rest := ReadVarint(s, i + 1);
      (Chunk(s, i) + 32 * rest.0, rest.1)
    else
      (Chunk(s, i), i + 1)
  }

  /** Zig-zag decoding: `(r & 1) ? ~(r >> 1) : (r >> 1)`. */
  function ZigZag(r: nat): int
  {
    if r % 2 == 1 then -(r / 2) - 1 else r / 2
  }

  /**
   * One iteration of the source's outer loop at index `i`: a latitude delta
   * and a longitude delta read one after the other and added to the running
   * accumulators; the new point, and the index after it.
   */
  function ReadPoint(s: string, i: nat, lat: int, lng: int): (r: (RawPoint, nat))
    ensures i + 2 <= r.1
    ensures i <= |s| ==> r.1 <= |s| + 2
  {
    var r1 := ReadVarint(s, i);
    var r2 := ReadVarint(s, r1.1);
    (RawPoint(lat + ZigZag(r1.0), lng + ZigZag(r2.0)), r2.1)
  }

  /**
   * The points decoded from index `i` on, starting from the accumulators
   * `lat` and `lng`: one point per iteration of the outer loop, which runs
   * while the index is inside the string.
   */
  function DecodeFrom(s: string, i: nat, lat: int, lng: int): seq<RawPoint>
    decreases |s| - i
  {
    if i >= |s| then []
    else
      var r := ReadPoint(s, i, lat, lng);
      [r.0] + DecodeFrom(s, r.1, r.0.lat, r.0.lng)
  }

  /** The integer coordinates the source decodes from `s`. */
  function DecodeRaw(s: string): seq<RawPoint>
  {
    DecodeFrom(s, 0, 0, 0)
  }

  function Pow10(n: nat): (p: nat)
    ensures p >= 1
  {
    if n == 0 then 1 else 10 * Pow10(n - 1)
  }

  /**
   * `[lat * 10^-precision, lng * 10^-precision]`, as an exact rational. A
   * negative precision multiplies by a power of ten.
   */
  function Scale(p: RawPoint, precision: int): LatLng
  {
    if precision >= 0 then
      LatLng(p.lat as real / Pow10(precision) as real, p.lng as real / Pow10(precision) as real)
    else
      LatLng(p.lat as real * Pow10(-precision) as real, p.lng as real * Pow10(-precision) as real)
  }

  /** Every decoded point scaled by the precision, in order. */
  function Scaled(pts: seq<RawPoint>, precision: int): seq<LatLng>
  {
    seq(|pts|, k requires 0 <= k < |pts| => Scale(pts[k], precision))
  }

  /**
   * One do-while loop of `_decode`: accumulate `(b & 0x1f) << shift` while
   * `b >= 0x20`. The chunks occupy disjoint bits, so `|=` is an addition;
   * `factor` is `1 << shift`.
   */
  method ReadValue(encoded: string, start: nat) returns (result: nat, index: nat)
    ensures (result, index) == ReadVarint(encoded, start)
  {
    index, result := start, 0;
    var factor: nat := 1;
    ReadFromIsReadVarint(encoded, start, 0, 1);
    while true
      invariant ReadFrom(encoded, index, result, factor) == ReadVarint(encoded, start)
      decreases |encoded| - index
    {
      var more := Continues(encoded, index);
      result := result + Chunk(encoded, index) * factor;
      factor := factor * 32;
      index := index + 1;
      if !more {
        return;
      }
    }
  }

  /**
   * The rest of the do-while loop from index `i`, with `result` accumulated
   * so far and the next chunk weighted by `factor`.
   */
  function ReadFrom(s: string, i: nat, result: nat, factor: nat): (nat, nat)
    decreases |s| - i
  {
    var acc := result + Chunk(s, i) * factor;
    if Continues(s, i) then ReadFrom(s, i + 1, acc, factor * 32) else (acc, i + 1)
  }

  /** The accumulating loop computes `ReadVarint`, scaled by the weight it starts with. */
  lemma {:induction false} ReadFromIsReadVarint(s: string, i: nat, result: nat, factor: nat)
    ensures ReadFrom(s, i, result, factor) == (result + ReadVarint(s, i).0 * factor, ReadVarint(s, i).1)
    decreases |s| - i
  {
    if Continues(s, i) {
      var c, r' := Chunk(s, i), ReadVarint(s, i + 1);
      ReadFromIsReadVarint(s, i + 1, result + c * factor, factor * 32);
      Distribute(c, r'.0, factor);
    }
  }

  lemma Distribute(c: nat, r: nat, f: nat)
    ensures (c + 32 * r) * f == c * f + r * (f * 32)
  {
  }

  /** `_decode(encoded, precision)`. */
  method Decode(encoded: string, precision: int) returns (points: seq<LatLng>)
    ensures points == Scaled(DecodeRaw(encoded), precision)
    ensures |points| <= (|encoded| + 1) / 2
    ensures encoded == [] ==> points == []
    ensures encoded != [] ==> |points| >= 1
  {
    var len := |encoded|;
    var index: nat, lat, lng := 0, 0, 0;
    points := [];
    ghost var raw: seq<RawPoint> := [];
    while index < len
      invariant DecodeRaw(encoded) == raw + DecodeFrom(encoded, index, lat, lng)
      invariant |points| == |raw|
      invariant forall k :: 0 <= k < |raw| ==> points[k] == Scale(raw[k], precision)
      decreases len - index
    {
      ghost var next := ReadPoint(encoded, index, lat, lng);
      ghost var rest := DecodeFrom(encoded, next.1, next.0.lat, next.0.lng);
      assert DecodeFrom(encoded, index, lat, lng) == [next.0] + rest;
      var result;
      result, index := ReadValue(encoded, index);
      lat := lat + ZigZag(result);
      result, index := ReadValue(encoded, index);
      lng := lng + ZigZag(result);
      assert (RawPoint(lat, lng), index) == next;
      points := points + [Scale(RawPoint(lat, lng), precision)];
      AppendStep(DecodeRaw(encoded), raw, RawPoint(lat, lng), rest);
      raw := raw + [RawPoint(lat, lng)];
    }
    assert raw == DecodeRaw(encoded);
    DecodeLength(encoded, 0, 0, 0);
  }

  lemma AppendStep(all: seq<RawPoint>, done: seq<RawPoint>, p: RawPoint, rest: seq<RawPoint>)
    requires all == done + ([p] + rest)
    ensures all == (done + [p]) + rest
  {
  }

  /**
   * Each iteration consumes at least two characters, so a string of length
   * n decodes to at most (n + 1) / 2 points, and nothing past the end.
   */
  lemma {:induction false} DecodeLength(s: string, i: nat, lat: int, lng: int)
    ensures i >= |s| ==> DecodeFrom(s, i, lat, lng) == []
    ensures i < |s| ==> 1 <= |DecodeFrom(s, i, lat, lng)| && 2 * |DecodeFrom(s, i, lat, lng)| <= |s| + 1 - i
    decreases |s| - i
  {
    if i < |s| {
      var r := ReadPoint(s, i, lat, lng);
      DecodeLength(s, r.1, r.0.lat, r.0.lng);
    }
  }

  /** The zig-zag delta pairs read by the iterations from index `i` on. */
  function Deltas(s: string, i: nat): seq<RawPoint>
    decreases |s| - i
  {
    if i >= |s| then []
    else
      var r := ReadPoint(s, i, 0, 0);
      [r.0] + Deltas(s, r.1)
  }

  function SumLat(ds: seq<RawPoint>): int
  {
    if ds == [] then 0 else ds[0].lat + SumLat(ds[1..])
  }

  function SumLng(ds: seq<RawPoint>): int
  {
    if ds == [] then 0 else ds[0].lng + SumLng(ds[1..])
  }

  /**
   * The k-th decoded point is the start plus the sum of the first k + 1
   * deltas: the coordinates are running prefix sums.
   */
  lemma {:induction false} DecodeIsPrefixSums(s: string, i: nat, lat: int, lng: int)
    ensures |DecodeFrom(s, i, lat, lng)| == |Deltas(s, i)|
    ensures forall k :: 0 <= k < |Deltas(s, i)| ==>
      DecodeFrom(s, i, lat, lng)[k] ==
        RawPoint(lat + SumLat(Deltas(s, i)[..k + 1]), lng + SumLng(Deltas(s, i)[..k + 1]))
    decreases |s| - i
  {
    if i < |s| {
      var r := ReadPoint(s, i, 0, 0);
      var d := r.0;
      var lat', lng' := lat + d.lat, lng + d.lng;
      assert ReadPoint(s, i, lat, lng) == (RawPoint(lat', lng'), r.1);
      var ds, rest := Deltas(s, i), Deltas(s, r.1);
      var pts, more := DecodeFrom(s, i, lat, lng), DecodeFrom(s, r.1, lat', lng');
      assert ds == [d] + rest;
      assert pts == [RawPoint(lat', lng')] + more;
      DecodeIsPrefixSums(s, r.1, lat', lng');
      forall k | 0 <= k < |ds|
        ensures pts[k] == RawPoint(lat + SumLat(ds[..k + 1]), lng + SumLng(ds[..k + 1]))
      {
        assert ds[..k + 1][1..] == rest[..k];
        if k == 0 {
          assert SumLat(ds[..1][1..]) == 0 && SumLng(ds[..1][1..]) == 0;
        } else {
          assert pts[k] == more[k - 1];
          assert rest[..k - 1 + 1] == rest[..k];
        }
      }
    }
  }

  // ---- The matching encoder ----

  /** Zig-zag encoding, the inverse of `ZigZag`. */
  function ZigZagEncode(d: int): (r: nat)
    ensures ZigZag(r) == d
  {
    if d >= 0 then 2 * d else -2 * d - 1
  }

  lemma ZigZagEncodeDecode(r: nat)
    ensures ZigZagEncode(ZigZag(r)) == r
  {
  }

  /** Little-endian base-32 chunks, 0x20 marking all but the last, offset by 63. */
  function EncodeVarint(v: nat): (e: string)
    ensures |e| >= 1
    decreases v
  {
    if v < 32 then [(v + 63) as char]
    else [((v % 32) + 32 + 63) as char] + EncodeVarint(v / 32)
  }

  function EncodeSigned(d: int): string
  {
    EncodeVarint(ZigZagEncode(d))
  }

  /** The encoding of `pts` as deltas from the point (lat, lng). */
  function EncodeFrom(pts: seq<RawPoint>, lat: int, lng: int): string
    decreases |pts|
  {
    if pts == [] then ""
    else EncodeSigned(pts[0].lat - lat) + EncodeSigned(pts[0].lng - lng) + EncodeFrom(pts[1..], pts[0].lat, pts[0].lng)
  }

  function Encode(pts: seq<RawPoint>): string
  {
    EncodeFrom(pts, 0, 0)
  }

  /** The last of `pts`, or (lat, lng) when there is none. */
  function LastOr(pts: seq<RawPoint>, lat: int, lng: int): RawPoint
  {
    if pts == [] then RawPoint(lat, lng) else pts[|pts| - 1]
  }

  /** `s` holds `e` from index `i` on. */
  predicate MatchesAt(s: string, i: nat, e: string)
    decreases |e|
  {
    e == [] || (i < |s| && s[i] == e[0] && MatchesAt(s, i + 1, e[1..]))
  }

  lemma {:induction false} MatchesAtSplit(s: string, i: nat, a: string, b: string)
    requires MatchesAt(s, i, a + b)
    ensures MatchesAt(s, i, a) && MatchesAt(s, i + |a|, b)
    decreases |a|
  {
    if a != [] {
      assert (a + b)[1..] == a[1..] + b;
      MatchesAtSplit(s, i + 1, a[1..], b);
    } else {
      assert a + b == b;
    }
  }

  /** Every string holds its own suffixes. */
  lemma {:induction false} MatchesSuffix(s: string, i: nat)
    requires i <= |s|
    ensures MatchesAt(s, i, s[i..])
    decreases |s| - i
  {
    if i < |s| {
      assert s[i..][1..] == s[i + 1..];
      MatchesSuffix(s, i + 1);
    }
  }

  /** The do-while loop reads back exactly one encoded value, whatever surrounds it. */
  lemma {:induction false} ReadEncodedVarint(s: string, i: nat, v: nat)
    requires MatchesAt(s, i, EncodeVarint(v))
    ensures ReadVarint(s, i) == (v, i + |EncodeVarint(v)|)
    decreases v
  {
    var e := EncodeVarint(v);
    if v >= 32 {
      var e' := EncodeVarint(v / 32);
      assert e[1..] == e';
      ReadEncodedVarint(s, i + 1, v / 32);
    }
  }

  /** The two values of one encoded point read back as that point. */
  lemma ReadEncodedPoint(s: string, i: nat, p: RawPoint, lat: int, lng: int)
    requires MatchesAt(s, i, EncodeSigned(p.lat - lat) + EncodeSigned(p.lng - lng))
    ensures i < |s|
    ensures ReadPoint(s, i, lat, lng) ==
      (p, i + |EncodeSigned(p.lat - lat)| + |EncodeSigned(p.lng - lng)|)
  {
    var e1, e2 := EncodeSigned(p.lat - lat), EncodeSigned(p.lng - lng);
    MatchesAtSplit(s, i, e1, e2);
    ReadEncodedVarint(s, i, ZigZagEncode(p.lat - lat));
    ReadEncodedVarint(s, i + |e1|, ZigZagEncode(p.lng - lng));
  }

  /**
   * Reading from index `i` on yields the points `pts` one after the other
   * and stops at index `j`.
   */
  predicate ReadsPoints(s: string, i: nat, pts: seq<RawPoint>, lat: int, lng: int, j: nat)
    decreases |pts|
  {
    if pts == [] then i == j
    else
      var r := ReadPoint(s, i, lat, lng);
      i < |s| && r.0 == pts[0] && ReadsPoints(s, r.1, pts[1..], pts[0].lat, pts[0].lng, j)
  }

  /** A string that holds the encoding of `pts` from index `i` on reads back `pts`. */
  lemma {:induction false} ReadEncodedPoints(s: string, i: nat, pts: seq<RawPoint>, lat: int, lng: int)
    requires MatchesAt(s, i, EncodeFrom(pts, lat, lng))
    ensures ReadsPoints(s, i, pts, lat, lng, i + |EncodeFrom(pts, lat, lng)|)
    decreases |pts|
  {
    if pts != [] {
      var p := pts[0];
      var e1, e2 := EncodeSigned(p.lat - lat), EncodeSigned(p.lng - lng);
      var rest := EncodeFrom(pts[1..], p.lat, p.lng);
      EncodeFromCons(pts, lat, lng);
      MatchesAtSplit(s, i, e1 + e2, rest);
      ReadEncodedPoint(s, i, p, lat, lng);
      var j := i + |e1| + |e2|;
      ReadEncodedPoints(s, j, pts[1..], p.lat, p.lng);
      assert j + |rest| == i + |EncodeFrom(pts, lat, lng)|;
      ReadsPointsCons(s, i, pts, lat, lng, j, i + |EncodeFrom(pts, lat, lng)|);
    }
  }

  lemma ReadsPointsCons(s: string, i: nat, pts: seq<RawPoint>, lat: int, lng: int, k: nat, j: nat)
    requires pts != [] && i < |s|
    requires ReadPoint(s, i, lat, lng) == (pts[0], k)
    requires ReadsPoints(s, k, pts[1..], pts[0].lat, pts[0].lng, j)
    ensures ReadsPoints(s, i, pts, lat, lng, j)
  {
  }

  /**
   * When the points `pts` are read from index `i` on, the decoder yields them
   * and then whatever it decodes from where they end.
   */
  lemma {:induction false} DecodeReadPoints(s: string, i: nat, pts: seq<RawPoint>, lat: int, lng: int, j: nat)
    requires ReadsPoints(s, i, pts, lat, lng, j)
    ensures DecodeFrom(s, i, lat, lng) == pts + DecodeFrom(s, j, LastOr(pts, lat, lng).lat, LastOr(pts, lat, lng).lng)
    decreases |pts|
  {
    if pts != [] {
      var r := ReadPoint(s, i, lat, lng);
      var last := LastOr(pts, lat, lng);
      DecodeReadPoints(s, r.1, pts[1..], pts[0].lat, pts[0].lng, j);
      assert LastOr(pts[1..], pts[0].lat, pts[0].lng) == last;
      ConsChain(DecodeFrom(s, i, lat, lng), DecodeFrom(s, r.1, pts[0].lat, pts[0].lng), pts,
        DecodeFrom(s, j, last.lat, last.lng));
    }
  }

  /**
   * Decoding a string that holds the encoding of `pts` from index `i` on
   * gives, from there, `pts` and then whatever the rest of the string
   * decodes to.
   */
  lemma DecodeEncodedPrefix(s: string, i: nat, pts: seq<RawPoint>, lat: int, lng: int)
    requires MatchesAt(s, i, EncodeFrom(pts, lat, lng))
    ensures DecodeFrom(s, i, lat, lng) ==
      pts + DecodeFrom(s, i + |EncodeFrom(pts, lat, lng)|, LastOr(pts, lat, lng).lat, LastOr(pts, lat, lng).lng)
  {
    ReadEncodedPoints(s, i, pts, lat, lng);
    DecodeReadPoints(s, i, pts, lat, lng, i + |EncodeFrom(pts, lat, lng)|);
  }

  lemma ConsChain(all: seq<RawPoint>, more: seq<RawPoint>, pts: seq<RawPoint>, tail: seq<RawPoint>)
    requires pts != []
    requires all == [pts[0]] + more
    requires more == pts[1..] + tail
    ensures all == pts + tail
  {
    assert pts == [pts[0]] + pts[1..];
  }

  lemma EncodeFromCons(pts: seq<RawPoint>, lat: int, lng: int)
    requires pts != []
    ensures EncodeFrom(pts, lat, lng) ==
      (EncodeSigned(pts[0].lat - lat) + EncodeSigned(pts[0].lng - lng)) + EncodeFrom(pts[1..], pts[0].lat, pts[0].lng)
  {
  }

  /** Decoding is the inverse of encoding. */
  lemma RoundTrip(pts: seq<RawPoint>)
    ensures DecodeRaw(Encode(pts)) == pts
  {
    var s := Encode(pts);
    MatchesSuffix(s, 0);
    assert s[0..] == s;
    DecodeEncodedPrefix(s, 0, pts, 0, 0);
    DecodeLength(s, |s|, LastOr(pts, 0, 0).lat, LastOr(pts, 0, 0).lng);
  }

  function Pow32(m: nat): (p: nat)
    ensures p >= 1
  {
    if m == 0 then 1 else 32 * Pow32(m - 1)
  }

  /** The low `m + 1` base-32 digits of `v` are its lowest digit and the low `m` digits of the rest. */
  lemma ModSplit(v: nat, p: nat)
    requires p >= 1
    ensures v % (32 * p) == v % 32 + 32 * ((v / 32) % p)
  {
    var q, r := v / 32, v % 32;
    var q2, r2 := q / p, q % p;
    assert v == (32 * p) * q2 + (32 * r2 + r) by {
      assert q == p * q2 + r2;
      assert v == 32 * q + r;
    }
    DivModUnique(v, 32 * p, q2, 32 * r2 + r);
  }

  lemma DivModUnique(v: int, n: int, q: int, r: int)
    requires n > 0 && 0 <= r < n && v == n * q + r
    ensures v % n == r
  {
    var q', r' := v / n, v % n;
    assert n * (q - q') == r' - r by {
      assert v == n * q' + r';
    }
    if q > q' {
      MulAtLeast(n, q - q');
    } else if q < q' {
      MulAtLeast(n, q' - q);
    }
  }

  lemma {:induction false} MulAtLeast(n: nat, k: nat)
    requires k >= 1
    ensures n * k >= n
    decreases k
  {
    if k > 1 {
      MulAtLeast(n, k - 1);
      assert n * k == n * (k - 1) + n;
    }
  }

  /**
   * The first `m` chunks of an encoded value at the very end of the string:
   * each of them says another chunk follows, so the do-while loop runs past
   * the end, where the missing chunks count 0. The value read is the low `m`
   * chunks of `v`, and the index ends one place past the end.
   */
  lemma {:induction false} ReadCutVarint(s: string, i: nat, v: nat, m: nat)
    requires m < |EncodeVarint(v)| && i + m == |s|
    requires MatchesAt(s, i, EncodeVarint(v)[..m])
    ensures ReadVarint(s, i) == (v % Pow32(m), |s| + 1)
    decreases m
  {
    if m > 0 {
      var e, e' := EncodeVarint(v), EncodeVarint(v / 32);
      assert v >= 32;
      assert e == [((v % 32) + 32 + 63) as char] + e';
      assert e[..m][1..] == e'[..m - 1];
      assert Continues(s, i) && Chunk(s, i) == v % 32;
      ReadCutVarint(s, i + 1, v / 32, m - 1);
      ModSplit(v, Pow32(m - 1));
    }
  }

  /**
   * A latitude delta cut after `m` of its chunks at the end of the string
   * decodes to one point: the latitude gets the low `m` chunks, and the
   * missing longitude, read past the end, adds 0.
   */
  lemma DecodeCutLatitude(s: string, i: nat, d: int, m: nat, lat: int, lng: int)
    requires 0 < m < |EncodeSigned(d)| && i + m == |s|
    requires MatchesAt(s, i, EncodeSigned(d)[..m])
    ensures DecodeFrom(s, i, lat, lng) == [RawPoint(lat + ZigZag(ZigZagEncode(d) % Pow32(m)), lng)]
  {
    ReadCutVarint(s, i, ZigZagEncode(d), m);
    assert ReadVarint(s, |s| + 1) == (0, |s| + 2);
    assert ReadPoint(s, i, lat, lng) == (RawPoint(lat + ZigZag(ZigZagEncode(d) % Pow32(m)), lng), |s| + 2);
    assert DecodeFrom(s, |s| + 2, lat + ZigZag(ZigZagEncode(d) % Pow32(m)), lng) == [];
  }

  /**
   * A whole latitude delta followed by the first `m` chunks of a longitude
   * delta at the end of the string decodes to one point: the latitude moves
   * by the whole delta, the longitude by the low `m` chunks of its own.
   */
  lemma DecodeCutLongitude(s: string, i: nat, d1: int, d2: int, m: nat, lat: int, lng: int)
    requires m < |EncodeSigned(d2)| && i + |EncodeSigned(d1)| + m == |s|
    requires MatchesAt(s, i, EncodeSigned(d1) + EncodeSigned(d2)[..m])
    ensures DecodeFrom(s, i, lat, lng) == [RawPoint(lat + d1, lng + ZigZag(ZigZagEncode(d2) % Pow32(m)))]
  {
    var e1 := EncodeSigned(d1);
    MatchesAtSplit(s, i, e1, EncodeSigned(d2)[..m]);
    ReadEncodedVarint(s, i, ZigZagEncode(d1));
    ReadCutVarint(s, i + |e1|, ZigZagEncode(d2), m);
    var p := RawPoint(lat + d1, lng + ZigZag(ZigZagEncode(d2) % Pow32(m)));
    assert ReadPoint(s, i, lat, lng) == (p, |s| + 1);
    assert DecodeFrom(s, |s| + 1, p.lat, p.lng) == [];
  }

  /**
   * Decoding the encoding of `pts` followed by anything gives `pts` and then
   * what the rest decodes to from the last point.
   */
  lemma DecodeAppended(pts: seq<RawPoint>, t: string)
    ensures MatchesAt(Encode(pts) + t, |Encode(pts)|, t)
    ensures DecodeRaw(Encode(pts) + t) ==
      pts + DecodeFrom(Encode(pts) + t, |Encode(pts)|, LastOr(pts, 0, 0).lat, LastOr(pts, 0, 0).lng)
  {
    var e := Encode(pts);
    var s := e + t;
    MatchesSuffix(s, 0);
    assert s[0..] == e + t;
    MatchesAtSplit(s, 0, e, t);
    DecodeEncodedPrefix(s, 0, pts, 0, 0);
  }

  /**
   * A string cut inside the latitude of its last point, after `m` of that
   * value's chunks, still yields a last point: the missing chunks count 0,
   * and so does the missing longitude.
   */
  lemma TruncatedLatitude(pts: seq<RawPoint>, d: int, m: nat)
    requires 0 < m < |EncodeSigned(d)|
    ensures DecodeRaw(Encode(pts) + EncodeSigned(d)[..m]) ==
      pts + [RawPoint(LastOr(pts, 0, 0).lat + ZigZag(ZigZagEncode(d) % Pow32(m)), LastOr(pts, 0, 0).lng)]
  {
    var e, t := Encode(pts), EncodeSigned(d)[..m];
    var s := e + t;
    DecodeAppended(pts, t);
    DecodeCutLatitude(s, |e|, d, m, LastOr(pts, 0, 0).lat, LastOr(pts, 0, 0).lng);
  }

  /**
   * A string cut inside the longitude of its last point, after `m` of that
   * value's chunks, still yields a last point whose longitude moves by the
   * chunks that are there. For `m = 0` the cut falls between the latitude
   * and the longitude, which then adds 0.
   */
  lemma TruncatedLongitude(pts: seq<RawPoint>, d1: int, d2: int, m: nat)
    requires m < |EncodeSigned(d2)|
    ensures DecodeRaw(Encode(pts) + (EncodeSigned(d1) + EncodeSigned(d2)[..m])) ==
      pts + [RawPoint(LastOr(pts, 0, 0).lat + d1, LastOr(pts, 0, 0).lng + ZigZag(ZigZagEncode(d2) % Pow32(m)))]
  {
    var e, t := Encode(pts), EncodeSigned(d1) + EncodeSigned(d2)[..m];
    var s := e + t;
    DecodeAppended(pts, t);
    DecodeCutLongitude(s, |e|, d1, d2, m, LastOr(pts, 0, 0).lat, LastOr(pts, 0, 0).lng);
  }
}
