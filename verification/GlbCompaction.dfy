/**
 * Colour compaction, scripts/compact_glb_colors.py: float and 16-bit vertex colours become
 * normalized bytes, and every buffer view is packed anew.
 */
module GlbCompaction {
  import opened Bytes
  import opened Common
  import opened GlbContainer

  // ---------------------------------------------------------------------
  // Quantisation
  // ---------------------------------------------------------------------

  /** `round(v/257)`: 257 is odd, so no quotient is half-way and the nearest integer is meant. */
  function FromUnorm16(v: int): (q: byte)
    requires 0 <= v < 65536
    ensures -128 <= 257 * q as int - v <= 128
    ensures v % 257 == 0 ==> 257 * q as int == v
  {
    (2 * v + 257) / 514
  }

  function RoundHalfEven(x: real): (n: int)
    ensures -0.5 <= n as real - x <= 0.5
    ensures n as real - x == 0.5 || x - n as real == 0.5 ==> n % 2 == 0
  {
    var floor := x.Floor;
    var part := x - floor as real;
    if part < 0.5 then floor
    else if part > 0.5 then floor + 1
    else if floor % 2 == 0 then floor else floor + 1
  }

  /** `round(v*255)` of a linear colour. The product of a 32-bit float and 255 is exact. */
  function FromFloat(v: real): (q: byte)
    requires 0.0 <= v <= 1.0
    ensures -0.5 <= q as int as real - v * 255.0 <= 0.5
    ensures q as int as real - v * 255.0 == 0.5 || v * 255.0 - q as int as real == 0.5 ==> q as int % 2 == 0
  {
    var n := RoundHalfEven(v * 255.0);
    assert 0.0 <= v * 255.0 <= 255.0;
    assert n as real > -1.0 && n as real < 256.0;
    n
  }

  /** One component of a colour, as a byte; None where an assertion or the unpacking fails. */
  function Quantised(codec: Codec, componentType: int, binary: seq<byte>, at: nat): Option<byte> {
    if componentType == 5126 then
      if at + 4 > |binary| then None
      else
        var v := codec.float32(binary[at..at + 4]);
        if v.Some? && 0.0 <= v.value <= 1.0 then Some(FromFloat(v.value)) else None
    else
      if at + 2 > |binary| then None
      else Some(FromUnorm16(binary[at] as int + 256 * binary[at + 1] as int))
  }

  /** The same component before rounding, on the scale of bytes. */
  function Component(codec: Codec, componentType: int, binary: seq<byte>, at: nat): Option<real> {
    if componentType == 5126 then
      if at + 4 > |binary| then None
      else
        var v := codec.float32(binary[at..at + 4]);
        if v.Some? then Some(v.value * 255.0) else None
    else
      if at + 2 > |binary| then None
      else Some((binary[at] as int + 256 * binary[at + 1] as int) as real / 257.0)
  }

  function Gap(q: int, x: real): real {
    if q as real < x then x - q as real else q as real - x
  }

  /** No byte is closer. */
  ghost predicate IsNearest(q: byte, x: real) {
    forall other: byte :: Gap(q, x) <= Gap(other, x)
  }

  lemma WithinAHalf(q: byte, x: real)
    requires Gap(q, x) <= 0.5
    ensures IsNearest(q, x)
  {
    forall other: byte
      ensures Gap(q, x) <= Gap(other, x)
    {
      assert other == q || other <= q - 1 || other >= q + 1;
    }
  }

  /** What "correctly rounded" means, for both kinds of colour. */
  lemma QuantisedIsNearest(codec: Codec, componentType: int, binary: seq<byte>, at: nat)
    requires Quantised(codec, componentType, binary, at).Some?
    ensures Component(codec, componentType, binary, at).Some?
    ensures IsNearest(Quantised(codec, componentType, binary, at).value, Component(codec, componentType, binary, at).value)
  {
    var q, x := Quantised(codec, componentType, binary, at).value, Component(codec, componentType, binary, at).value;
    if componentType != 5126 {
      var v := binary[at] as int + 256 * binary[at + 1] as int;
      assert x * 257.0 == v as real;
      assert -128 <= 257 * q as int - v <= 128;
    }
    WithinAHalf(q, x);
  }

  // ---------------------------------------------------------------------
  // One colour accessor
  // ---------------------------------------------------------------------

  /** Component number `n` of a packed list. */
  function QuantisedAt(codec: Codec, componentType: int, binary: seq<byte>, start: nat, width: nat, n: nat): Option<byte> {
    Quantised(codec, componentType, binary, start + n * width)
  }

  predicate AllQuantised(codec: Codec, componentType: int, binary: seq<byte>, start: nat, width: nat, count: nat) {
    forall n: nat {:trigger QuantisedAt(codec, componentType, binary, start, width, n)} :: n < count ==>
      QuantisedAt(codec, componentType, binary, start, width, n).Some?
  }

  /** The flat list of bytes. */
  function Flat(codec: Codec, componentType: int, binary: seq<byte>, start: nat, width: nat, count: nat): (s: seq<byte>)
    requires AllQuantised(codec, componentType, binary, start, width, count)
    ensures |s| == count
    ensures forall n: nat {:trigger s[n]} :: n < count ==> Some(s[n]) == QuantisedAt(codec, componentType, binary, start, width, n)
  {
    seq(count, n requires 0 <= n < count => QuantisedAt(codec, componentType, binary, start, width, n).value)
  }

  /** `b''.join(rgb[start:start+3] + b'\0' ...)`. */
  function Spread(rgb: seq<byte>): seq<byte> {
    if |rgb| <= 3 then (if rgb == [] then [] else rgb + [0]) else rgb[..3] + [0] + Spread(rgb[3..])
  }

  lemma {:induction false} SpreadLength(rgb: seq<byte>, n: nat)
    requires |rgb| == 3 * n
    ensures |Spread(rgb)| == 4 * n
  {
    if n > 1 {
      SpreadLength(rgb[3..], n - 1);
    }
  }

  lemma {:induction false} SpreadAt(rgb: seq<byte>, n: nat, i: nat, c: nat)
    requires |rgb| == 3 * n && i < n && c < 3
    ensures |Spread(rgb)| == 4 * n && Spread(rgb)[4 * i + c] == rgb[3 * i + c]
  {
    SpreadLength(rgb, n);
    if n > 1 && i > 0 {
      SpreadAt(rgb[3..], n - 1, i - 1, c);
    }
  }

  /** One iteration of the loop over colours: the new document and the view's new payload; None where it raises. */
  function Replaced(codec: Codec, document: Document, binary: seq<byte>, index: nat): Option<(Document, seq<byte>)> {
    if index >= |document.accessors| || document.accessors[index].view >= |document.views| then None
    else
      var accessor := document.accessors[index];
      var view := document.views[accessor.view];
      if accessor.byteOffset != 0 || view.byteStride.Some? || accessor.kind !in {VEC3, VEC4} then None
      else if accessor.componentType != 5126 && !(accessor.componentType == 5123 && accessor.normalized) then None
      else
        var count := accessor.count * (if accessor.kind == VEC3 then 3 else 4);
        var width := if accessor.componentType == 5126 then 4 else 2;
        if view.byteLength != count * width then None
        else if view.byteOffset + count * width > |binary| then None
        else if !AllQuantised(codec, accessor.componentType, binary, view.byteOffset, width, count) then None
        else
          var flat := Flat(codec, accessor.componentType, binary, view.byteOffset, width, count);
          var narrow := accessor.(componentType := 5121, normalized := true);
          if accessor.kind == VEC3 then
            Some((document.(accessors := document.accessors[index := narrow],
                            views := document.views[accessor.view := view.(byteStride := Some(4))]), Spread(flat)))
          else Some((document.(accessors := document.accessors[index := narrow]), flat))
  }

  /**
   * A colour the script can convert: RGB or RGBA, floats between 0 and 1 or normalized 16-bit numbers, and
   * packed alone into a view that lies in the binary.
   */
  ghost predicate Convertible(codec: Codec, document: Document, binary: seq<byte>, index: nat) {
    && index < |document.accessors| && document.accessors[index].view < |document.views|
    && var accessor := document.accessors[index];
       var view := document.views[accessor.view];
       && accessor.byteOffset == 0 && view.byteStride.None?
       && (accessor.kind == VEC3 || accessor.kind == VEC4)
       && (accessor.componentType == 5126 || (accessor.componentType == 5123 && accessor.normalized))
       && view.byteLength == accessor.count * (if accessor.kind == VEC3 then 3 else 4)
                             * (if accessor.componentType == 5126 then 4 else 2)
       && view.byteOffset + view.byteLength <= |binary|
       && (accessor.componentType == 5126 ==> AllFloats(codec, binary, view.byteOffset, view.byteLength / 4))
  }

  /** Float number `k` of a packed list. */
  function FloatAt(codec: Codec, binary: seq<byte>, start: nat, k: nat): Option<real> {
    if start + k * 4 + 4 > |binary| then None else codec.float32(binary[start + k * 4..start + k * 4 + 4])
  }

  lemma WithinView(k: nat, count: nat, width: nat)
    requires k < count
    ensures k * width + width <= count * width
  {
    var d := count - k - 1;
    assert d * width >= 0;
    assert count * width == k * width + width + d * width;
  }

  lemma ConvertibleExactly(codec: Codec, document: Document, binary: seq<byte>, index: nat)
    ensures Replaced(codec, document, binary, index).Some? <==> Convertible(codec, document, binary, index)
  {
    if index < |document.accessors| && document.accessors[index].view < |document.views| {
      var accessor := document.accessors[index];
      var view := document.views[accessor.view];
      var count := accessor.count * (if accessor.kind == VEC3 then 3 else 4);
      var width := if accessor.componentType == 5126 then 4 else 2;
      if view.byteLength == count * width && view.byteOffset + view.byteLength <= |binary| {
        QuantisedAll(codec, accessor.componentType, binary, view.byteOffset, width, count);
        assert accessor.componentType == 5126 ==> count == view.byteLength / 4;
      }
    }
  }

  ghost predicate AllFloats(codec: Codec, binary: seq<byte>, start: nat, count: nat) {
    forall k: nat {:trigger FloatAt(codec, binary, start, k)} :: k < count ==>
      var v := FloatAt(codec, binary, start, k); v.Some? && 0.0 <= v.value <= 1.0
  }

  lemma QuantisedOne(codec: Codec, componentType: int, binary: seq<byte>, start: nat, width: nat, count: nat, k: nat)
    requires width == (if componentType == 5126 then 4 else 2) && start + count * width <= |binary| && k < count
    ensures QuantisedAt(codec, componentType, binary, start, width, k).Some? <==>
            (componentType == 5126 ==> var v := FloatAt(codec, binary, start, k); v.Some? && 0.0 <= v.value <= 1.0)
  {
    WithinView(k, count, width);
  }

  lemma QuantisedAll(codec: Codec, componentType: int, binary: seq<byte>, start: nat, width: nat, count: nat)
    requires width == (if componentType == 5126 then 4 else 2) && start + count * width <= |binary|
    ensures AllQuantised(codec, componentType, binary, start, width, count) <==>
            (componentType == 5126 ==> AllFloats(codec, binary, start, count))
  {
    forall k: nat | k < count
      ensures QuantisedAt(codec, componentType, binary, start, width, k).Some? <==>
              (componentType == 5126 ==> var v := FloatAt(codec, binary, start, k); v.Some? && 0.0 <= v.value <= 1.0)
    {
      QuantisedOne(codec, componentType, binary, start, width, count, k);
    }
  }

  /** A colour accessor that is not bytes yet. */
  predicate Wide(document: Document, index: nat) {
    index in document.colors && index < |document.accessors| && document.accessors[index].componentType != 5121
  }

  /** Each view of a wide colour accessor belongs to that accessor alone. */
  ghost predicate OwnViews(document: Document) {
    forall a: nat, b: nat {:trigger document.accessors[a], document.accessors[b]} ::
      Wide(document, a) && b < |document.accessors| && document.accessors[a].view == document.accessors[b].view ==> a == b
  }

  /** What the document and payloads are once the wide colours in `done` have been handled. */
  ghost predicate Handled(codec: Codec, document: Document, binary: seq<byte>, done: set<nat>, now: Document, payloads: map<nat, seq<byte>>) {
    && now.colors == document.colors && |now.accessors| == |document.accessors| && |now.views| == |document.views|
    && now.rest == document.rest && now.bufferLength == document.bufferLength
    && (forall a: nat {:trigger now.accessors[a]} :: a < |now.accessors| ==>
          if a in done && Wide(document, a) then HandledAt(codec, document, binary, a, now, payloads)
          else now.accessors[a] == document.accessors[a])
    && (forall v: nat {:trigger now.views[v]} :: v < |now.views| && !HandledView(document, done, v) ==>
          now.views[v] == document.views[v] && v !in payloads)
    && (forall v {:trigger v in payloads} :: v in payloads ==> v < |now.views|)
  }

  ghost predicate HandledView(document: Document, done: set<nat>, v: nat) {
    exists a: nat :: a in done && Wide(document, a) && document.accessors[a].view == v
  }

  ghost predicate HandledAt(codec: Codec, document: Document, binary: seq<byte>, a: nat, now: Document, payloads: map<nat, seq<byte>>)
    requires a < |document.accessors| && a < |now.accessors|
  {
    var v := document.accessors[a].view;
    match Replaced(codec, document, binary, a)
    case None => false
    case Some((one, payload)) =>
      && now.accessors[a] == one.accessors[a]
      && v < |now.views| && now.views[v] == one.views[v]
      && v in payloads && payloads[v] == payload
  }

  /** Before its turn a wide colour and its view are still as they were, so it is handled as if it were alone. */
  lemma ItsTurn(codec: Codec, document: Document, binary: seq<byte>, done: set<nat>, now: Document, payloads: map<nat, seq<byte>>, a: nat)
    requires OwnViews(document) && Handled(codec, document, binary, done, now, payloads) && a !in done && Wide(document, a)
    ensures now.accessors[a] == document.accessors[a]
    ensures Replaced(codec, now, binary, a).Some? <==> Replaced(codec, document, binary, a).Some?
    ensures Replaced(codec, now, binary, a).Some? ==>
              var (one, payload), v := Replaced(codec, now, binary, a).value, document.accessors[a].view;
              Handled(codec, document, binary, done + {a}, one, payloads[v := payload])
  {
    var v := document.accessors[a].view;
    assert v < |now.views| ==> !HandledView(document, done, v) && now.views[v] == document.views[v];
    if Replaced(codec, now, binary, a).Some? {
      HandledOneMore(codec, document, binary, done, now, payloads, a);
    }
  }

  lemma HandledOneMore(codec: Codec, document: Document, binary: seq<byte>, done: set<nat>, now: Document, payloads: map<nat, seq<byte>>, a: nat)
    requires OwnViews(document) && Handled(codec, document, binary, done, now, payloads) && a !in done && Wide(document, a)
    requires document.accessors[a].view < |document.views| && now.views[document.accessors[a].view] == document.views[document.accessors[a].view]
    requires now.accessors[a] == document.accessors[a] && Replaced(codec, now, binary, a).Some?
    ensures var (one, payload), v := Replaced(codec, now, binary, a).value, document.accessors[a].view;
            Handled(codec, document, binary, done + {a}, one, payloads[v := payload])
  {
    var v := document.accessors[a].view;
    var (one, payload) := Replaced(codec, now, binary, a).value;
    var more := payloads[v := payload];
    forall b: nat | b < |one.accessors|
      ensures if b in done + {a} && Wide(document, b) then HandledAt(codec, document, binary, b, one, more)
              else one.accessors[b] == document.accessors[b]
    {
      if b != a {
        assert one.accessors[b] == now.accessors[b];
        if b in done && Wide(document, b) {
          assert document.accessors[b].view != v;
          assert HandledAt(codec, document, binary, b, now, payloads);
        }
      }
    }
    forall u: nat | u < |one.views| && !HandledView(document, done + {a}, u)
      ensures one.views[u] == document.views[u] && u !in more
    {
      assert a in done + {a} && u != v;
      assert !HandledView(document, done, u);
    }
  }

  /** Every colour is bytes already. */
  ghost predicate Compact(document: Document) {
    forall a :: a in document.colors ==> a < |document.accessors| && document.accessors[a].componentType == 5121
  }

  /** Some colour cannot be handled. */
  ghost predicate Fails(codec: Codec, document: Document, binary: seq<byte>) {
    exists a :: a in document.colors && (a >= |document.accessors| || (Wide(document, a) && Replaced(codec, document, binary, a).None?))
  }

  /** Every colour is an accessor of bytes already, or one that can be converted. */
  ghost predicate AllConvertible(codec: Codec, document: Document, binary: seq<byte>) {
    forall a {:trigger a in document.colors} :: a in document.colors ==>
      a < |document.accessors| && (document.accessors[a].componentType == 5121 || Convertible(codec, document, binary, a))
  }

  lemma FailsExactly(codec: Codec, document: Document, binary: seq<byte>)
    ensures Fails(codec, document, binary) <==> !AllConvertible(codec, document, binary)
  {
    forall a: nat {
      ConvertibleExactly(codec, document, binary, a);
    }
  }

  /** With views owned, the handled colours are as if each were alone; none of them fails. */
  ghost predicate Progress(codec: Codec, document: Document, binary: seq<byte>, done: set<nat>, now: Document, payloads: map<nat, seq<byte>>) {
    OwnViews(document) ==>
      && Handled(codec, document, binary, done, now, payloads)
      && forall a: nat {:trigger a in done} :: a in done && Wide(document, a) ==> Replaced(codec, document, binary, a).Some?
  }

  /** The documents agree on what the loop has not come to, and the colours it has come to are bytes. */
  ghost predicate Partly(document: Document, todo: set<nat>, now: Document, payloads: map<nat, seq<byte>>) {
    && now.colors == document.colors && |now.accessors| == |document.accessors|
    && |now.views| == |document.views| && now.bufferLength == document.bufferLength
    && (forall a: nat {:trigger a in document.colors} :: a in document.colors && a !in todo ==>
          a < |now.accessors| && now.accessors[a].componentType == 5121)
    && (forall a: nat {:trigger now.accessors[a]} :: a in todo && a < |now.accessors| ==> now.accessors[a] == document.accessors[a])
    && (payloads == map[] <==> forall a: nat {:trigger a in document.colors} :: a in document.colors && a !in todo ==> !Wide(document, a))
  }

  /** One iteration, whatever the other colours share. */
  lemma PartlyMore(codec: Codec, document: Document, binary: seq<byte>, todo: set<nat>, now: Document, payloads: map<nat, seq<byte>>, a: nat)
    requires Partly(document, todo, now, payloads) && a in todo && todo <= document.colors && a < |now.accessors|
    ensures now.accessors[a].componentType == 5121 ==> Partly(document, todo - {a}, now, payloads)
    ensures now.accessors[a].componentType != 5121 && Replaced(codec, now, binary, a).Some? ==>
              var (one, payload) := Replaced(codec, now, binary, a).value;
              Partly(document, todo - {a}, one, payloads[now.accessors[a].view := payload])
  {
    assert a in document.colors;
    if now.accessors[a].componentType != 5121 && Replaced(codec, now, binary, a).Some? {
      var (one, payload) := Replaced(codec, now, binary, a).value;
      var more := payloads[now.accessors[a].view := payload];
      assert now.accessors[a].view in more && Wide(document, a);
      assert forall b: nat :: b < |one.accessors| && b != a ==> one.accessors[b] == now.accessors[b];
    }
  }

  lemma ProgressMore(codec: Codec, document: Document, binary: seq<byte>, done: set<nat>, now: Document, payloads: map<nat, seq<byte>>, a: nat)
    requires Progress(codec, document, binary, done, now, payloads) && a !in done && a in document.colors && a < |document.accessors|
    ensures !Wide(document, a) ==> Progress(codec, document, binary, done + {a}, now, payloads)
    ensures Wide(document, a) && Replaced(codec, now, binary, a).Some? ==>
              var (one, payload) := Replaced(codec, now, binary, a).value;
              Progress(codec, document, binary, done + {a}, one, payloads[document.accessors[a].view := payload])
    ensures OwnViews(document) && Wide(document, a) && Replaced(codec, now, binary, a).None? ==> Fails(codec, document, binary)
  {
    if OwnViews(document) {
      if Wide(document, a) {
        ItsTurn(codec, document, binary, done, now, payloads, a);
      } else {
        NothingToDoHere(codec, document, binary, done, now, payloads, a);
      }
    }
  }

  /** The loop over the colour accessors, in any order. */
  method ReplaceAll(codec: Codec, document: Document, binary: seq<byte>) returns (r: Option<(Document, map<nat, seq<byte>>)>)
    ensures r.Some? ==> Partly(document, {}, r.value.0, r.value.1)
    ensures OwnViews(document) ==> (r.None? <==> Fails(codec, document, binary))
    ensures OwnViews(document) && r.Some? ==> Handled(codec, document, binary, document.colors, r.value.0, r.value.1)
  {
    var now, payloads: map<nat, seq<byte>> := document, map[];
    var todo := document.colors;
    while todo != {}
      invariant todo <= document.colors && Partly(document, todo, now, payloads)
      invariant Progress(codec, document, binary, document.colors - todo, now, payloads)
      decreases todo
    {
      var index :| index in todo;
      ghost var done := document.colors - todo;
      assert document.colors - (todo - {index}) == done + {index};
      if index >= |now.accessors| {
        return None;
      }
      PartlyMore(codec, document, binary, todo, now, payloads, index);
      ProgressMore(codec, document, binary, done, now, payloads, index);
      assert now.accessors[index] == document.accessors[index];
      if now.accessors[index].componentType != 5121 {
        var r := Replaced(codec, now, binary, index);
        if r.None? {
          return None;
        }
        payloads := payloads[now.accessors[index].view := r.value.1];
        now := r.value.0;
      }
      todo := todo - {index};
    }
    assert document.colors - {} == document.colors;
    NoneFails(codec, document, binary, now, payloads);
    return Some((now, payloads));
  }

  lemma NoneFails(codec: Codec, document: Document, binary: seq<byte>, now: Document, payloads: map<nat, seq<byte>>)
    requires Partly(document, {}, now, payloads) && Progress(codec, document, binary, document.colors, now, payloads)
    ensures OwnViews(document) ==> !Fails(codec, document, binary)
  {
  }

  lemma NothingToDoHere(codec: Codec, document: Document, binary: seq<byte>, done: set<nat>, now: Document, payloads: map<nat, seq<byte>>, a: nat)
    requires Handled(codec, document, binary, done, now, payloads) && a !in done && !Wide(document, a)
    ensures Handled(codec, document, binary, done + {a}, now, payloads)
  {
    forall b: nat | b < |now.accessors|
      ensures if b in done + {a} && Wide(document, b) then HandledAt(codec, document, binary, b, now, payloads)
              else now.accessors[b] == document.accessors[b]
    {
      assert b in done + {a} && Wide(document, b) <==> b in done && Wide(document, b);
      assert now.accessors[b] == now.accessors[b];
    }
    forall v: nat | !HandledView(document, done + {a}, v)
      ensures !HandledView(document, done, v)
    {
      assert HandledView(document, done, v) ==> HandledView(document, done + {a}, v);
    }
  }

  // ---------------------------------------------------------------------
  // Packing
  // ---------------------------------------------------------------------

  /** A slice, which never raises. */
  function Clip(s: seq<byte>, start: nat, length: nat): (r: seq<byte>)
    ensures start + length <= |s| ==> r == s[start..start + length]
  {
    if start >= |s| then [] else if start + length > |s| then s[start..] else s[start..start + length]
  }

  /** `replacements.get(index, binary[...])`. */
  function Payload(views: seq<View>, payloads: map<nat, seq<byte>>, binary: seq<byte>, v: nat): seq<byte>
    requires v < |views|
  {
    if v in payloads then payloads[v] else Clip(binary, views[v].byteOffset, views[v].byteLength)
  }

  /** View `v` lies in the packed bytes, on a multiple of four, and holds its payload. */
  predicate Placed(views: seq<View>, payloads: map<nat, seq<byte>>, binary: seq<byte>, now: seq<View>, packed: seq<byte>, v: nat)
    requires v < |views| == |now|
  {
    var payload := Payload(views, payloads, binary, v);
    var at := now[v].byteOffset;
    && now[v] == views[v].(byteOffset := at, byteLength := |payload|)
    && at % 4 == 0 && at + |payload| <= |packed| && packed[at..at + |payload|] == payload
  }

  /** The first `n` views are placed, one after another. */
  ghost predicate Packed(views: seq<View>, payloads: map<nat, seq<byte>>, binary: seq<byte>, now: seq<View>, packed: seq<byte>, n: nat)
    requires n <= |views| == |now|
  {
    && (forall v: nat {:trigger now[v]} :: v < n ==> Placed(views, payloads, binary, now, packed, v))
    && (forall u: nat, v: nat {:trigger now[u], now[v]} :: u < v < n ==> now[u].byteOffset + now[u].byteLength <= now[v].byteOffset)
    && (forall v: nat {:trigger now[v]} :: n <= v < |now| ==> now[v] == views[v])
  }

  lemma PackedMore(views: seq<View>, payloads: map<nat, seq<byte>>, binary: seq<byte>, now: seq<View>, packed: seq<byte>, n: nat, aligned: seq<byte>)
    requires n < |views| == |now| && Packed(views, payloads, binary, now, packed, n)
    requires packed <= aligned && |aligned| % 4 == 0
    ensures var payload := Payload(views, payloads, binary, n);
            Packed(views, payloads, binary, now[n := now[n].(byteOffset := |aligned|, byteLength := |payload|)], aligned + payload, n + 1)
  {
    var payload := Payload(views, payloads, binary, n);
    var more, bytes := now[n := now[n].(byteOffset := |aligned|, byteLength := |payload|)], aligned + payload;
    forall v: nat | v < n + 1
      ensures Placed(views, payloads, binary, more, bytes, v)
    {
      if v < n {
        assert Placed(views, payloads, binary, now, packed, v);
        var at, end := now[v].byteOffset, now[v].byteOffset + now[v].byteLength;
        assert bytes[at..end] == packed[at..end];
      } else {
        assert bytes[|aligned|..|aligned| + |payload|] == payload;
      }
    }
    forall u: nat, v: nat | u < v < n + 1
      ensures more[u].byteOffset + more[u].byteLength <= more[v].byteOffset
    {
      assert Placed(views, payloads, binary, now, packed, u);
    }
  }

  /** Bytes that belong to none of the first `n` views are zero. */
  ghost predicate ZeroBetween(now: seq<View>, packed: seq<byte>, n: nat)
    requires n <= |now|
  {
    forall at: nat {:trigger packed[at]} :: at < |packed| && !InViews(now, n, at) ==> packed[at] == 0
  }

  ghost predicate InViews(now: seq<View>, n: nat, at: nat)
    requires n <= |now|
  {
    exists v: nat :: v < n && now[v].byteOffset <= at < now[v].byteOffset + now[v].byteLength
  }

  lemma {:induction false} ZeroBetweenMore(now: seq<View>, packed: seq<byte>, n: nat, aligned: seq<byte>, payload: seq<byte>)
    requires n < |now| && ZeroBetween(now, packed, n) && aligned == Padded(packed, 0)
    ensures ZeroBetween(now[n := now[n].(byteOffset := |aligned|, byteLength := |payload|)], aligned + payload, n + 1)
  {
    var more, bytes := now[n := now[n].(byteOffset := |aligned|, byteLength := |payload|)], aligned + payload;
    forall at: nat | at < |bytes|
      ensures InViews(more, n + 1, at) || bytes[at] == 0
    {
      if at < |packed| {
        assert bytes[at] == packed[at];
        if InViews(now, n, at) {
          var v: nat :| v < n && now[v].byteOffset <= at < now[v].byteOffset + now[v].byteLength;
          assert more[v] == now[v];
        }
      } else if at < |aligned| {
        assert aligned[at] == 0;
      } else {
        assert more[n].byteOffset <= at < more[n].byteOffset + more[n].byteLength;
      }
    }
  }

  /** The loop that lays the views out again. */
  method Pack(views: seq<View>, payloads: map<nat, seq<byte>>, binary: seq<byte>) returns (now: seq<View>, packed: seq<byte>)
    ensures |now| == |views| && Packed(views, payloads, binary, now, packed, |views|)
    ensures ZeroBetween(now, packed, |views|)
  {
    now, packed := views, [];
    for index := 0 to |views|
      invariant |now| == |views| && Packed(views, payloads, binary, now, packed, index)
      invariant ZeroBetween(now, packed, index)
    {
      var aligned := Padded(packed, 0);
      var payload := Payload(views, payloads, binary, index);
      PackedMore(views, payloads, binary, now, packed, index, aligned);
      ZeroBetweenMore(now, packed, index, aligned, payload);
      now := now[index := now[index].(byteOffset := |aligned|, byteLength := |payload|)];
      packed := aligned + payload;
    }
  }

  // ---------------------------------------------------------------------
  // compact_colors()
  // ---------------------------------------------------------------------

  /** The document and the binary bytes as the script finds them; it does not check the container. */
  function InputOf(codec: Codec, raw: seq<byte>): Option<(Document, seq<byte>)> {
    if |raw| < 16 then None
    else
      var size := FromU32(raw[12..16]);
      match codec.read(Clip(raw, 20, size))
      case None => None
      case Some(document) => Some((document, Clip(raw, 28 + size, |raw|)))
  }

  /** A file that `save` could have written is read as it would be parsed. */
  lemma InputIsParsed(codec: Codec, metadata: seq<byte>, binary: seq<byte>, document: Document)
    requires 28 + |metadata| + |binary| < WORD && |metadata| % 4 == 0 && |binary| % 4 == 0 && codec.read(metadata) == Some(document)
    ensures InputOf(codec, Container(metadata, binary)) == Some((document, binary))
    ensures Parsed(codec, Container(metadata, binary)) == Some((document, binary))
  {
    var raw, m := Container(metadata, binary), |metadata|;
    ContainerParts(metadata, binary);
    ContainerParses(codec, metadata, binary, document);
    WordRoundTrip(m);
    assert Clip(raw, 28 + m, |raw|) == binary;
  }

  /** The accessor's rows lie in its view, and the view in the binary. */
  predicate Fits(document: Document, binary: seq<byte>, a: nat) {
    && LayoutOf(document, a).Some?
    && var accessor := document.accessors[a];
       var view := document.views[accessor.view];
       && InBounds(LayoutOf(document, a).value.(offset := accessor.byteOffset), accessor.count, view.byteLength)
       && view.byteOffset + view.byteLength <= |binary|
  }

  /** Component `c` of row `i` of a wide colour, as a byte. */
  function Colour(codec: Codec, document: Document, binary: seq<byte>, a: nat, i: nat, c: nat): Option<byte>
    requires a < |document.accessors| && document.accessors[a].view < |document.views|
  {
    var accessor := document.accessors[a];
    var components := if accessor.kind == VEC3 then 3 else 4;
    var width := if accessor.componentType == 5126 then 4 else 2;
    Quantised(codec, accessor.componentType, binary, document.views[accessor.view].byteOffset + (components * i + c) * width)
  }

  /** Everything but the wide colours reads as before. */
  ghost predicate GeometryKept(before: Document, binary: seq<byte>, after: Document, packed: seq<byte>) {
    forall a: nat {:trigger Rows(after, packed, a)} :: a < |before.accessors| && !Wide(before, a) && Fits(before, binary, a) ==>
      && a < |after.accessors| && after.accessors[a] == before.accessors[a]
      && Rows(after, packed, a) == Rows(before, binary, a)
  }

  /** A wide colour now has byte components, each the rounding of the one it replaces. */
  ghost predicate ColourRounded(codec: Codec, before: Document, binary: seq<byte>, after: Document, packed: seq<byte>, a: nat) {
    && a < |before.accessors| == |after.accessors| && before.accessors[a].view < |before.views|
    && var accessor := before.accessors[a];
       var components := if accessor.kind == VEC3 then 3 else 4;
       && after.accessors[a] == accessor.(componentType := 5121, normalized := true)
       && Rows(after, packed, a).Some? && |Rows(after, packed, a).value| == accessor.count
       && (forall i: nat {:trigger Rows(after, packed, a).value[i]} :: i < accessor.count ==> |Rows(after, packed, a).value[i]| == components)
       && (forall i: nat, c: nat {:trigger Rows(after, packed, a).value[i][c]} :: i < accessor.count && c < components ==>
             IsRounded(codec, before, binary, a, i, c, Rows(after, packed, a).value[i][c]))
  }

  /** The byte that the script computes for this component, and no byte is closer to the old component. */
  ghost predicate IsRounded(codec: Codec, before: Document, binary: seq<byte>, a: nat, i: nat, c: nat, q: byte)
    requires a < |before.accessors| && before.accessors[a].view < |before.views|
  {
    && Colour(codec, before, binary, a, i, c) == Some(q)
    && Original(codec, before, binary, a, i, c).Some? && IsNearest(q, Original(codec, before, binary, a, i, c).value)
  }

  ghost predicate ColoursRounded(codec: Codec, before: Document, binary: seq<byte>, after: Document, packed: seq<byte>) {
    forall a: nat {:trigger Wide(before, a)} :: Wide(before, a) ==> ColourRounded(codec, before, binary, after, packed, a)
  }

  /** Component `c` of row `i` of a wide colour before rounding, on the scale of bytes. */
  function Original(codec: Codec, document: Document, binary: seq<byte>, a: nat, i: nat, c: nat): Option<real>
    requires a < |document.accessors| && document.accessors[a].view < |document.views|
  {
    var accessor := document.accessors[a];
    var components := if accessor.kind == VEC3 then 3 else 4;
    var width := if accessor.componentType == 5126 then 4 else 2;
    Component(codec, accessor.componentType, binary, document.views[accessor.view].byteOffset + (components * i + c) * width)
  }

  /** The views are on multiples of four, inside the declared buffer, and apart. */
  ghost predicate WellPacked(document: Document, binary: seq<byte>) {
    && document.bufferLength <= |binary| < document.bufferLength + 4
    && (forall v {:trigger document.views[v]} :: 0 <= v < |document.views| ==>
          document.views[v].byteOffset % 4 == 0 && document.views[v].byteOffset + document.views[v].byteLength <= document.bufferLength)
    && (forall u, v {:trigger document.views[u], document.views[v]} :: 0 <= u < v < |document.views| ==>
          document.views[u].byteOffset + document.views[u].byteLength <= document.views[v].byteOffset)
  }

  datatype Outcome = Unchanged | Rewritten(raw: seq<byte>) | Raised

  /** The run finds nothing to do. */
  ghost predicate AlreadyCompact(codec: Codec, raw: seq<byte>) {
    InputOf(codec, raw).Some? && Compact(InputOf(codec, raw).value.0)
  }

  /** Equal stretches hold equal rows. */
  lemma SameRow(src: seq<byte>, dst: seq<byte>, from: nat, to: nat, length: nat, l: Layout, count: nat, i: nat)
    requires from + length <= |src| && to + length <= |dst| && dst[to..to + length] == src[from..from + length]
    requires InBounds(l, count, length) && i < count
    ensures InBounds(l.(offset := from + l.offset), count, |src|) && InBounds(l.(offset := to + l.offset), count, |dst|)
    ensures Row(dst, l.(offset := to + l.offset), count, i) == Row(src, l.(offset := from + l.offset), count, i)
  {
    RowFits(i, count, l.stride);
    var at, end := l.offset + i * l.stride, l.offset + i * l.stride + l.size;
    Within(dst, to, length, at, end);
    Within(src, from, length, at, end);
  }

  lemma Within(s: seq<byte>, from: nat, length: nat, at: nat, end: nat)
    requires from + length <= |s| && at <= end <= length
    ensures s[from..from + length][at..end] == s[from + at..from + end]
  {
    var x, y := s[from..from + length][at..end], s[from + at..from + end];
    assert forall k :: 0 <= k < end - at ==> x[k] == y[k];
  }

  /** One accessor that is not a wide colour: its view was copied whole. */
  lemma AccessorStays(document: Document, binary: seq<byte>, after: Document, packed: seq<byte>, a: nat)
    requires Fits(document, binary, a) && |after.accessors| == |document.accessors| && |after.views| == |document.views|
    requires after.accessors[a] == document.accessors[a]
    requires var v := document.accessors[a].view;
             var (view, moved) := (document.views[v], after.views[v]);
             && moved == view.(byteOffset := moved.byteOffset)
             && moved.byteOffset + view.byteLength <= |packed|
             && packed[moved.byteOffset..moved.byteOffset + view.byteLength] ==
                binary[view.byteOffset..view.byteOffset + view.byteLength]
    ensures Rows(after, packed, a) == Rows(document, binary, a)
  {
    var accessor := document.accessors[a];
    var view, moved := document.views[accessor.view], after.views[accessor.view];
    var l := LayoutOf(document, a).value.(offset := accessor.byteOffset);
    var before, later := Rows(document, binary, a), Rows(after, packed, a);
    assert LayoutOf(after, a).value == l.(offset := moved.byteOffset + l.offset);
    assert LayoutOf(document, a).value == l.(offset := view.byteOffset + l.offset);
    assert before.Some? && later.Some?;
    forall i: nat {:trigger later.value[i]} | i < accessor.count
      ensures later.value[i] == before.value[i]
    {
      SameRow(binary, packed, view.byteOffset, moved.byteOffset, view.byteLength, l, accessor.count, i);
    }
    assert later.value == before.value;
  }

  /** The finished document. */
  function Finished(now: Document, views: seq<View>, packed: seq<byte>): Document {
    now.(views := views, bufferLength := |packed|)
  }

  lemma PaddedHolds(packed: seq<byte>, at: nat, length: nat)
    requires at + length <= |packed|
    ensures at + length <= |Padded(packed, 0)| && Padded(packed, 0)[at..at + length] == packed[at..at + length]
  {
  }

  lemma GeometryStays(codec: Codec, document: Document, binary: seq<byte>, now: Document, payloads: map<nat, seq<byte>>,
                      views: seq<View>, packed: seq<byte>)
    requires OwnViews(document) && Handled(codec, document, binary, document.colors, now, payloads)
    requires |views| == |now.views| && Packed(now.views, payloads, binary, views, packed, |views|)
    ensures GeometryKept(document, binary, Finished(now, views, packed), Padded(packed, 0))
  {
    var after := Finished(now, views, packed);
    forall a: nat | a < |document.accessors| && !Wide(document, a) && Fits(document, binary, a)
      ensures after.accessors[a] == document.accessors[a]
      ensures Rows(after, Padded(packed, 0), a) == Rows(document, binary, a)
    {
      var v := document.accessors[a].view;
      assert now.accessors[a] == document.accessors[a];
      assert !HandledView(document, document.colors, v);
      assert now.views[v] == document.views[v] && v !in payloads;
      assert Placed(now.views, payloads, binary, views, packed, v);
      PaddedHolds(packed, views[v].byteOffset, document.views[v].byteLength);
      AccessorStays(document, binary, after, Padded(packed, 0), a);
    }
  }

  /** The four bytes kept for each colour hold its components. */
  lemma PayloadAt(codec: Codec, document: Document, binary: seq<byte>, a: nat, i: nat, c: nat)
    requires Replaced(codec, document, binary, a).Some?
    requires i < document.accessors[a].count && c < (if document.accessors[a].kind == VEC3 then 3 else 4)
    ensures |Replaced(codec, document, binary, a).value.1| == 4 * document.accessors[a].count
    ensures Some(Replaced(codec, document, binary, a).value.1[4 * i + c]) == Colour(codec, document, binary, a, i, c)
  {
    var accessor := document.accessors[a];
    var components := if accessor.kind == VEC3 then 3 else 4;
    var count, width := accessor.count * components, if accessor.componentType == 5126 then 4 else 2;
    var flat := Flat(codec, accessor.componentType, binary, document.views[accessor.view].byteOffset, width, count);
    assert components * i + c < count;
    assert Some(flat[components * i + c]) == Colour(codec, document, binary, a, i, c);
    if accessor.kind == VEC3 {
      SpreadAt(flat, accessor.count, i, c);
    }
  }

  lemma ColourIsNearest(codec: Codec, document: Document, binary: seq<byte>, a: nat, i: nat, c: nat)
    requires a < |document.accessors| && document.accessors[a].view < |document.views|
    requires Colour(codec, document, binary, a, i, c).Some?
    ensures Original(codec, document, binary, a, i, c).Some?
    ensures IsNearest(Colour(codec, document, binary, a, i, c).value, Original(codec, document, binary, a, i, c).value)
  {
    var accessor := document.accessors[a];
    var components := if accessor.kind == VEC3 then 3 else 4;
    var width := if accessor.componentType == 5126 then 4 else 2;
    QuantisedIsNearest(codec, accessor.componentType, binary,
      document.views[accessor.view].byteOffset + (components * i + c) * width);
  }

  lemma PayloadLength(codec: Codec, document: Document, binary: seq<byte>, a: nat)
    requires Replaced(codec, document, binary, a).Some?
    ensures |Replaced(codec, document, binary, a).value.1| == 4 * document.accessors[a].count
  {
    var accessor := document.accessors[a];
    if accessor.kind == VEC3 {
      var width := if accessor.componentType == 5126 then 4 else 2;
      SpreadLength(Flat(codec, accessor.componentType, binary, document.views[accessor.view].byteOffset, width, accessor.count * 3), accessor.count);
    }
  }

  /** Rows of three or four bytes at a stride of four. */
  lemma ColourRows(after: Document, packed: seq<byte>, a: nat, payload: seq<byte>)
    requires a < |after.accessors| && after.accessors[a].view < |after.views|
    requires var accessor := after.accessors[a];
             var view := after.views[accessor.view];
             && accessor.componentType == 5121 && accessor.byteOffset == 0 && accessor.kind in {VEC3, VEC4}
             && view.byteStride == (if accessor.kind == VEC3 then Some(4) else None)
             && |payload| == 4 * accessor.count
             && view.byteOffset + |payload| <= |packed| && packed[view.byteOffset..view.byteOffset + |payload|] == payload
    ensures Rows(after, packed, a).Some? && |Rows(after, packed, a).value| == after.accessors[a].count
    ensures forall i: nat {:trigger Rows(after, packed, a).value[i]} :: i < after.accessors[a].count ==>
              |Rows(after, packed, a).value[i]| == if after.accessors[a].kind == VEC3 then 3 else 4
    ensures forall i: nat, c: nat {:trigger Rows(after, packed, a).value[i][c]} ::
              i < after.accessors[a].count && c < (if after.accessors[a].kind == VEC3 then 3 else 4) ==>
              Rows(after, packed, a).value[i][c] == payload[4 * i + c]
  {
    var accessor := after.accessors[a];
    var at, l := after.views[accessor.view].byteOffset, LayoutOf(after, a).value;
    assert l.stride == 4 && l.offset == at;
    forall i: nat, c: nat {:trigger Row(packed, l, accessor.count, i)[c]} | i < accessor.count && c < l.size
      ensures Row(packed, l, accessor.count, i)[c] == payload[4 * i + c]
    {
      assert packed[at..at + |payload|][4 * i + c] == packed[at + 4 * i + c];
    }
  }

  lemma ColoursRound(codec: Codec, document: Document, binary: seq<byte>, now: Document, payloads: map<nat, seq<byte>>,
                     views: seq<View>, packed: seq<byte>)
    requires OwnViews(document) && Handled(codec, document, binary, document.colors, now, payloads)
    requires |views| == |now.views| && Packed(now.views, payloads, binary, views, packed, |views|)
    ensures ColoursRounded(codec, document, binary, Finished(now, views, packed), Padded(packed, 0))
  {
    forall a: nat | Wide(document, a)
      ensures ColourRounded(codec, document, binary, Finished(now, views, packed), Padded(packed, 0), a)
    {
      assert now.accessors[a] == now.accessors[a];
      assert HandledAt(codec, document, binary, a, now, payloads);
      OneColourRounds(codec, document, binary, now, payloads, views, packed, a);
    }
  }

  lemma OneColourRounds(codec: Codec, document: Document, binary: seq<byte>, now: Document, payloads: map<nat, seq<byte>>,
                        views: seq<View>, packed: seq<byte>, a: nat)
    requires a < |document.accessors| == |now.accessors| && HandledAt(codec, document, binary, a, now, payloads)
    requires |views| == |now.views| == |document.views| && Packed(now.views, payloads, binary, views, packed, |views|)
    ensures ColourRounded(codec, document, binary, Finished(now, views, packed), Padded(packed, 0), a)
  {
    var after, bytes := Finished(now, views, packed), Padded(packed, 0);
    var accessor := document.accessors[a];
    var payload := payloads[accessor.view];
    assert Placed(now.views, payloads, binary, views, packed, accessor.view);
    PayloadLength(codec, document, binary, a);
    PaddedHolds(packed, views[accessor.view].byteOffset, |payload|);
    ColourRows(after, bytes, a, payload);
    forall i: nat, c: nat {:trigger Rows(after, bytes, a).value[i][c]} | i < accessor.count && c < (if accessor.kind == VEC3 then 3 else 4)
      ensures IsRounded(codec, document, binary, a, i, c, Rows(after, bytes, a).value[i][c])
    {
      PayloadAt(codec, document, binary, a, i, c);
      ColourIsNearest(codec, document, binary, a, i, c);
    }
  }

  lemma PackedWell(now: Document, payloads: map<nat, seq<byte>>, binary: seq<byte>, views: seq<View>, packed: seq<byte>)
    requires |views| == |now.views| && Packed(now.views, payloads, binary, views, packed, |views|)
    ensures WellPacked(Finished(now, views, packed), Padded(packed, 0))
  {
    var after := Finished(now, views, packed);
    forall v | 0 <= v < |views|
      ensures views[v].byteOffset % 4 == 0 && views[v].byteOffset + views[v].byteLength <= |packed|
    {
      assert Placed(now.views, payloads, binary, views, packed, v);
    }
  }

  /**
   * `compact_colors`. A rewritten file parses, its views are 4-aligned, in bounds and disjoint, and a
   * second run leaves it as it is. When every wide colour has its view to itself, all other
   * accessors read the same rows and every colour component is the rounding of the old one.
   */
  method CompactColors(codec: Codec, raw: seq<byte>) returns (r: Outcome)
    requires Lawful(codec)
    ensures r.Unchanged? <==> AlreadyCompact(codec, raw)
    ensures r.Rewritten? ==> AlreadyCompact(codec, r.raw)
    ensures r.Rewritten? ==>
              && InputOf(codec, raw).Some? && Parsed(codec, r.raw).Some?
              && WellPacked(Parsed(codec, r.raw).value.0, Parsed(codec, r.raw).value.1)
    ensures r.Rewritten? && OwnViews(InputOf(codec, raw).value.0) ==>
              var (before, binary) := InputOf(codec, raw).value;
              var (after, packed) := Parsed(codec, r.raw).value;
              && GeometryKept(before, binary, after, packed)
              && ColoursRounded(codec, before, binary, after, packed)
    // With views owned it raises only for a file it cannot read, a colour it cannot convert, or a result too long to save.
    ensures InputOf(codec, raw).None? ==> r.Raised?
    ensures InputOf(codec, raw).Some? && OwnViews(InputOf(codec, raw).value.0) ==>
              var (before, binary) := InputOf(codec, raw).value;
              if !AllConvertible(codec, before, binary) then r.Raised?
              else r.Raised? ==> exists after, packed ::
                     && Save(codec, after, packed).None?
                     && GeometryKept(before, binary, after, Padded(packed, 0))
                     && ColoursRounded(codec, before, binary, after, Padded(packed, 0))
  {
    var input := InputOf(codec, raw);
    if input.None? {
      return Raised;
    }
    var (document, binary) := input.value;
    FailsExactly(codec, document, binary);
    var replaced := ReplaceAll(codec, document, binary);
    if replaced.None? {
      return Raised;
    }
    var (now, payloads) := replaced.value;
    if payloads == map[] {
      return Unchanged;
    }
    var views, packed := Pack(now.views, payloads, binary);
    var after := Finished(now, views, packed);
    var out := Save(codec, after, packed);
    if OwnViews(document) {
      GeometryStays(codec, document, binary, now, payloads, views, packed);
      ColoursRound(codec, document, binary, now, payloads, views, packed);
    }
    if out.None? {
      return Raised;
    }
    SavedInput(codec, after, packed);
    PackedWell(now, payloads, binary, views, packed);
    return Rewritten(out.value);
  }

  lemma SavedInput(codec: Codec, document: Document, packed: seq<byte>)
    requires Lawful(codec) && Save(codec, document, packed).Some?
    ensures InputOf(codec, Save(codec, document, packed).value) == Some((document, Padded(packed, 0)))
    ensures Parsed(codec, Save(codec, document, packed).value) == Some((document, Padded(packed, 0)))
  {
    var text := codec.write(document);
    assert Padded(text, 0x20) == text + Repeat(0x20, Padding(|text|));
    InputIsParsed(codec, Padded(text, 0x20), Padded(packed, 0), document);
  }
}
