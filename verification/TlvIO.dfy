/**
 * The stream code of bertlv: `Tag.ReadFrom`, `readLength`, `TLV.ReadFrom` over a reader with nested limits, and
 * `TLV.WriteTo` over a writer that may fail, each proved to compute the functions of BerTag, BerLength and BerTlv.
 */
module BerIO {
  import opened Bytes
  import opened BerTag
  import opened BerLength
  import opened BerTlv

  /* ---------- the reader ---------- */

  /**
   * A finite stream under nested `io.LimitedReader`s: reads stop at `end`, the nearest of the limits and of the end of
   * the data. A limit of `N` bytes set at position `p` is the end `p + N`, so its `N` shrinks as `pos` grows.
   * A stream that fails midway is one that ends there: the callers treat every read error alike.
   */
  class ByteReader {
    const data: seq<byte>
    var pos: nat
    var end: nat

    ghost predicate Valid()
      reads this
    {
      pos <= end <= |data|
    }

    constructor (data: seq<byte>)
      ensures Valid() && this.data == data && Window() == data
    {
      this.data, pos, end := data, 0, |data|;
    }

    /** The bytes that reads can still obtain. */
    ghost function Window(): seq<byte>
      requires Valid()
      reads this
    {
      data[pos..end]
    }

    /** `io.ReadAtLeast(r, buf, len(buf))` for a buffer of `k` bytes: a short read keeps what it got. */
    method ReadFull(k: nat) returns (ok: bool, buf: seq<byte>)
      requires Valid()
      modifies `pos
      ensures Valid()
      ensures buf == old(Window())[..Min(k, |old(Window())|)]
      ensures ok <==> k <= |old(Window())|
      ensures pos == old(pos) + |buf|
      ensures Window() == old(Window())[|buf|..]
    {
      var n := Min(k, end - pos);
      assert data[pos..pos + n] == Window()[..n];
      buf, ok := data[pos..pos + n], n == k;
      pos := pos + n;
    }
  }

  /** `Tag.ReadFrom`. */
  method ReadTag(r: ByteReader) returns (ok: bool, tag: Tag)
    requires r.Valid()
    modifies r`pos
    ensures r.Valid() && old(r.pos) <= r.pos
    ensures ok <==> DecodeTag(old(r.Window())).Some?
    ensures ok ==> DecodeTag(old(r.Window())) == Some(tag) && |tag| > 0 && r.pos == old(r.pos) + |tag|
  {
    ghost var s := r.Window();
    ok, tag := r.ReadFull(1);
    if !ok || tag[0] % 32 != 31 {
      return;
    }
    var n := 1;
    while n < 11
      invariant 1 <= n <= 11 && n <= |s| && tag == s[..n] && s[0] % 32 == 31
      invariant DecodeTag(s) == ScanTag(s, n)
      invariant r.Valid() && r.pos == old(r.pos) + n
    {
      var more, next := r.ReadFull(1);
      if !more {
        return false, tag;
      }
      tag := tag + next;
      assert tag == s[..n + 1];
      if n == 1 && tag[n] % 128 == 0 {
        return false, tag;
      }
      if tag[n] < 128 {
        var value := Value(tag);
        return value >= 31, tag;
      }
      n := n + 1;
    }
    ok := false;
  }

  /** `readLength`. */
  method ReadLength(r: ByteReader) returns (ok: bool, length: nat)
    requires r.Valid()
    modifies r`pos
    ensures r.Valid() && old(r.pos) <= r.pos
    ensures ok <==> DecodeLength(old(r.Window())).Some?
    ensures ok ==> DecodeLength(old(r.Window())) == Some(Field(length, r.pos - old(r.pos)))
  {
    ghost var s := r.Window();
    var first, more;
    ok, first := r.ReadFull(1);
    if !ok {
      return false, 0;
    }
    length := first[0];
    if first[0] == 0x81 {
      ok, more := r.ReadFull(1);
      assert ok ==> more == s[1..2];
      if ok { length := more[0]; }
    } else if first[0] == 0x82 {
      ok, more := r.ReadFull(2);
      assert ok ==> more == s[1..3];
      if ok { length := Shift8(more[0], more[1]); }
    } else if first[0] == 0x83 {
      ok, more := r.ReadFull(3);
      assert ok ==> more == s[1..4];
      if ok { length := Shift8(Shift8(more[0], more[1]), more[2]); }
    } else {
      ok := first[0] < 0x80;
    }
  }

  /** The variable that `ReadFrom` and `UnmarshalBinary` overwrite. */
  class Cell {
    var tlv: TLV

    constructor ()
      ensures tlv == Nil
    {
      tlv := Nil;
    }
  }

  /**
   * `TLV.ReadFrom`. Terminates on every finite stream: each call works on a smaller window. On success the count is
   * the header plus the declared length and the reader has moved by just that; on failure the destination is untouched
   * and the count is 0 (no tag) or what was taken.
   */
  method ReadFrom(r: ByteReader, cell: Cell) returns (ok: bool, n: nat)
    requires r.Valid()
    modifies r, cell
    ensures r.Valid() && r.end == old(r.end) && old(r.pos) <= r.pos
    ensures ok <==> Parse(old(r.Window())).Some?
    ensures ok ==> Parse(old(r.Window())) == Some((cell.tlv, n)) && r.pos == old(r.pos) + n
    ensures !ok ==> cell.tlv == old(cell.tlv) && (n == 0 || n == r.pos - old(r.pos))
    decreases r.end - r.pos, 0
  {
    hide ReadHead, Parse, ParseChildren;
    ghost var s := r.Window();
    var start := r.pos;
    var tag, length;
    ok, tag, length, n := ReadHeader(r);
    ParseByHead(s);
    if !ok {
      return;
    }
    if FormOf(tag).Constructed? {
      var children;
      assert r.Window() == s[n..];
      ok, children := ReadChildren(r, length);
      n := r.pos - start;
      if !ok {
        return;
      }
      cell.tlv := TLV(tag, [], children);
    } else {
      var value;
      ghost var h := n;
      assert r.Window() == s[h..];
      ok, value := r.ReadFull(length);
      n := r.pos - start;
      if !ok {
        return;
      }
      assert value == s[h..h + length];
      cell.tlv := TLV(tag, value, []);
    }
  }

  /** The tag and length fields; the count stays 0 while no tag has been read. */
  method ReadHeader(r: ByteReader) returns (ok: bool, tag: Tag, length: nat, n: nat)
    requires r.Valid()
    modifies r`pos
    ensures r.Valid() && old(r.pos) <= r.pos
    ensures ok <==> ReadHead(old(r.Window())).Some?
    ensures ok ==> ReadHead(old(r.Window())) == Some(Head(tag, length, n)) && n == r.pos - old(r.pos)
    ensures n == 0 || n == r.pos - old(r.pos)
  {
    ghost var s := r.Window();
    var start := r.pos;
    length, n := 0, 0;
    ok, tag := ReadTag(r);
    if ok {
      assert r.Window() == s[|tag|..];
      ok, length := ReadLength(r);
      n := r.pos - start;
    }
  }

  /**
   * The child loop, behind a limit of `length` bytes that ends with the loop. The source's check for a child that took
   * no bytes can never fire: a tree takes at least two.
   */
  method ReadChildren(r: ByteReader, length: nat) returns (ok: bool, children: seq<TLV>)
    requires r.Valid()
    modifies r
    ensures r.Valid() && r.end == old(r.end) && old(r.pos) <= r.pos
    ensures ok <==> ParseChildren(old(r.Window()), length).Some?
    ensures ok ==> ParseChildren(old(r.Window()), length) == Some(children) && r.pos == old(r.pos) + length
    decreases r.end - r.pos, 1
  {
    hide ReadHead, Parse, ParseChildren;
    ghost var s := r.Window();
    var outer, limit := r.end, r.pos + length;
    r.end := Min(outer, limit);
    children, ok := [], true;
    PrependNone(ParseChildren(s, length));
    ghost var left := s;
    while ok && r.pos < limit
      invariant r.Valid() && r.end == Min(outer, limit) && old(r.pos) <= r.pos
      invariant ok ==> left == r.data[r.pos..outer]
      invariant ok ==> ParseChildren(s, length) == Prepend(children, ParseChildren(left, limit - r.pos))
      invariant !ok ==> ParseChildren(s, length).None?
      decreases ok, limit - r.pos
    {
      var child := new Cell();
      var n;
      ChildrenTurn(left, limit - r.pos);
      WindowBehindLimit(r.data, r.pos, outer, limit);
      ok, n := ReadFrom(r, child);
      if ok {
        left := left[n..];
        PrependTwice(children, child.tlv, ParseChildren(left, limit - r.pos));
        children := children + [child.tlv];
      }
    }
    ChildrenEnd(left);
    assert children + [] == children;
    r.end := outer;
  }

  /** What a reader at `pos` sees behind a limit, in terms of what it would see without. */
  lemma WindowBehindLimit(data: seq<byte>, pos: nat, outer: nat, limit: nat)
    requires pos <= Min(outer, limit) && outer <= |data|
    ensures data[pos..Min(outer, limit)] == data[pos..outer][..Min(limit - pos, outer - pos)]
  {
  }

  /** The tree at the head of `s`, given its header. */
  lemma ParseByHead(s: seq<byte>)
    ensures ReadHead(s).None? ==> Parse(s).None?
    ensures ReadHead(s).Some? ==>
              var Head(tag, length, h) := ReadHead(s).value;
              Parse(s) ==
              if FormOf(tag).Constructed? then
                match ParseChildren(s[h..], length)
                case None => None
                case Some(cs) => Some((TLV(tag, [], cs), h + length))
              else if |s| - h < length then None
              else Some((TLV(tag, s[h..h + length], []), h + length))
  {
    hide ReadHead;
  }

  lemma ChildrenEnd(s: seq<byte>)
    ensures ParseChildren(s, 0) == Some([])
  {
  }

  /** What one turn of the loop contributes. */
  lemma ChildrenTurn(s: seq<byte>, limit: nat)
    requires limit > 0
    ensures ParseChildren(s, limit) ==
            match Parse(s[..Min(limit, |s|)])
            case None => None
            case Some((c, n)) => Prepend([c], ParseChildren(s[n..], limit - n))
  {
  }

  function Prepend(done: seq<TLV>, tail: Option<seq<TLV>>): Option<seq<TLV>> {
    match tail
    case None => None
    case Some(cs) => Some(done + cs)
  }

  lemma PrependNone(tail: Option<seq<TLV>>)
    ensures Prepend([], tail) == tail
  {
    if tail.Some? {
      assert [] + tail.value == tail.value;
    }
  }

  lemma PrependTwice(done: seq<TLV>, c: TLV, tail: Option<seq<TLV>>)
    ensures Prepend(done, Prepend([c], tail)) == Prepend(done + [c], tail)
  {
    if tail.Some? {
      assert done + ([c] + tail.value) == done + [c] + tail.value;
    }
  }

  /** `UnmarshalBinary`. Trailing data is an error, yet the destination has then been overwritten. */
  method UnmarshalBinary(data: seq<byte>, cell: Cell) returns (ok: bool)
    modifies cell
    ensures ok <==> Unmarshal(data).Some?
    ensures ok ==> Unmarshal(data) == Some(cell.tlv)
    ensures cell.tlv == if Parse(data).Some? then Parse(data).value.0 else old(cell.tlv)
  {
    var reader := new ByteReader(data);
    var n;
    ok, n := ReadFrom(reader, cell);
    ok := ok && reader.pos == |data|;
  }

  /* ---------- the writer ---------- */

  /** An `io.Writer`: it takes `room` more bytes before it fails, or any number when `room` is absent. */
  class Sink {
    var out: seq<byte>
    var room: Option<nat>

    constructor (room: Option<nat>)
      ensures out == [] && this.room == room
    {
      out, this.room := [], room;
    }

    method Write(p: seq<byte>) returns (ok: bool)
      modifies this
      ensures out == old(out) + Accepted(old(room), p)
      ensures room == Left(old(room), |Accepted(old(room), p)|)
      ensures ok <==> |Accepted(old(room), p)| == |p|
    {
      var taken := Accepted(room, p);
      out, ok := out + taken, |taken| == |p|;
      room := Left(room, |taken|);
    }
  }

  /** The part of `p` that a writer with this much room takes. */
  function Accepted(room: Option<nat>, p: seq<byte>): (r: seq<byte>)
    ensures r <= p && (room.Some? ==> |r| <= room.value)
  {
    match room
    case None => p
    case Some(left) => p[..Min(left, |p|)]
  }

  function Left(room: Option<nat>, taken: nat): Option<nat>
    requires room.Some? ==> taken <= room.value
  {
    match room
    case None => None
    case Some(left) => Some(left - taken)
  }

  /** Two writes in a row take what one write of both pieces would; a short one ends the row. */
  lemma AcceptedConcat(room: Option<nat>, a: seq<byte>, b: seq<byte>)
    ensures var first := Accepted(room, a);
            && (|first| < |a| ==> Accepted(room, a + b) == first)
            && (|first| == |a| ==>
                  var rest := Accepted(Left(room, |a|), b);
                  && Accepted(room, a + b) == a + rest
                  && Left(room, |a + rest|) == Left(Left(room, |a|), |rest|))
  {
  }

  /** `contentLength`; `None` is a panic. */
  method ContentLength(t: TLV) returns (n: Option<nat>)
    ensures n == ContentSize(t)
    decreases t, 0
  {
    if !Tagged(t) {
      return None;
    }
    if IsPrimitive(t) {
      return Some(|t.value|);
    }
    var sum: nat := 0;
    for i := 0 to |t.children|
      invariant ChildrenSize(t.children) == AddSize(sum, ChildrenSize(t.children[i..]))
    {
      var child := t.children[i];
      assert t.children[i..][1..] == t.children[i + 1..];
      if child.Nil? {
        continue;
      }
      var size := Len(child);
      if size.None? {
        return None;
      }
      sum := sum + size.value;
    }
    n := Some(sum);
  }

  function AddSize(a: nat, b: Option<nat>): Option<nat> {
    match b
    case None => None
    case Some(n) => Some(a + n)
  }

  /** `Len`; `None` is a panic. */
  method Len(t: TLV) returns (n: Option<nat>)
    ensures n == Size(t)
    decreases t, 1
  {
    var content := ContentLength(t);
    if content.None? || content.value >= LENGTH_LIMIT {
      return None;
    }
    var c := content.value;
    var field := if c < 128 then 1 else if c < 0x100 then 2 else if c < 0x1_0000 then 3 else 4;
    n := Some(c + field + |t.tag|);
  }

  datatype WriteResult = Ended(status: Status) | WriterFailed

  /**
   * `TLV.WriteTo`. What reaches the writer is the emission, cut where the writer fails; the count is what got through.
   */
  method WriteTo(t: TLV, w: Sink) returns (n: nat, result: WriteResult)
    modifies w
    ensures Written(old(w.out), old(w.room), w.out, w.room, Emit(t), n, result)
    decreases t, 0
  {
    hide MarshalLength, Accepted, Left;
    var length := ContentLength(t);
    if length.None? {
      AcceptedNothing(w.room);
      return 0, Ended(Panicked);
    }
    if (t.value != [] && !IsPrimitive(t)) || (t.children != [] && IsPrimitive(t)) || length.value >= LENGTH_LIMIT {
      AcceptedNothing(w.room);
      return 0, Ended(Rejected);
    }
    var start := |w.out|;
    ghost var field, body := MarshalLength(length.value), if IsPrimitive(t) then t.value else EmitChildren(t.children).out;
    assert Emit(t).out == t.tag + (field + body);
    assert !IsPrimitive(t) ==> Emit(t).status == EmitChildren(t.children).status;
    assert IsPrimitive(t) ==> Emit(t).status == Done;
    hide Emit, EmitChildren, ContentSize;
    assert Emit(t).out == t.tag + field + body;
    AcceptedConcat(w.room, t.tag + field, body);
    var ok := WriteHeader(w, t.tag, MarshalLength(length.value));
    if !ok {
      return |w.out| - start, WriterFailed;
    }
    if IsPrimitive(t) {
      ok := w.Write(t.value);
      return |w.out| - start, if ok then Ended(Done) else WriterFailed;
    }
    var taken;
    taken, result := WriteChildren(t.children, w);
    n := |w.out| - start;
  }

  /** The writes of the tag and of the length. */
  method WriteHeader(w: Sink, tag: seq<byte>, field: seq<byte>) returns (ok: bool)
    modifies w
    ensures w.out == old(w.out) + Accepted(old(w.room), tag + field)
    ensures w.room == Left(old(w.room), |Accepted(old(w.room), tag + field)|)
    ensures ok <==> |Accepted(old(w.room), tag + field)| == |tag + field|
  {
    hide Accepted, Left;
    AcceptedConcat(w.room, tag, field);
    ok := w.Write(tag);
    if ok {
      ok := w.Write(field);
    }
  }

  /** `n` bytes of the emission were taken by a writer that had `room0` and held `out0`. */
  ghost predicate Written(out0: seq<byte>, room0: Option<nat>, out: seq<byte>, room: Option<nat>,
                          e: Emission, n: nat, result: WriteResult) {
    && n == |Accepted(room0, e.out)|
    && out == out0 + Accepted(room0, e.out)
    && room == Left(room0, n)
    && result == if n == |e.out| then Ended(e.status) else WriterFailed
  }

  lemma AcceptedNothing(room: Option<nat>)
    ensures Accepted(room, []) == [] && Left(room, 0) == room
  {
  }

  /** The child loop of `WriteTo`. */
  method WriteChildren(cs: seq<TLV>, w: Sink) returns (n: nat, result: WriteResult)
    modifies w
    ensures Written(old(w.out), old(w.room), w.out, w.room, EmitChildren(cs), n, result)
    decreases cs, 1
  {
    hide Accepted, Left, Emit;
    n := 0;
    ghost var all := EmitChildren(cs);
    ghost var before: seq<byte> := [];
    AcceptedNothing(w.room);
    AcceptedConcat(w.room, [], all.out);
    assert [] + all.out == all.out;
    for i := 0 to |cs|
      invariant n == |before| && w.out == old(w.out) + before
      invariant Accepted(old(w.room), before) == before && w.room == Left(old(w.room), n)
      invariant all == Emission(before + EmitChildren(cs[i..]).out, EmitChildren(cs[i..]).status)
    {
      assert cs[i..][1..] == cs[i + 1..];
      if cs[i].Nil? {
        continue;
      }
      ghost var first, tail := Emit(cs[i]), EmitChildren(cs[i + 1..]);
      AcceptedConcat(old(w.room), before, first.out);
      AcceptedConcat(old(w.room), before + first.out, tail.out);
      var m;
      m, result := WriteTo(cs[i], w);
      n := n + m;
      if first.status.Done? {
        assert all.out == before + first.out + tail.out;
      } else {
        assert all.out == before + first.out;
      }
      if result != Ended(Done) {
        return;
      }
      before := before + first.out;
    }
    assert all.out == before;
    result := Ended(Done);
  }

  /** `MarshalBinary` into memory: the tree is sized first, so a length too long to announce panics. */
  method MarshalBinary(t: TLV) returns (bytes: seq<byte>, status: Status)
    ensures Marshal(t) == if status.Done? then Some(bytes) else None
    ensures status.Panicked? <==> Size(t).None?
    ensures !status.Panicked? ==> Emission(bytes, status) == Emit(t)
  {
    var size := Len(t);
    if size.None? {
      return [], Panicked;
    }
    SizedNeverPanics(t);
    var buf := new Sink(None);
    var n, result := WriteTo(t, buf);
    assert buf.out == Emit(t).out;
    bytes, status := buf.out, result.status;
  }

  /** `Clone`. */
  method Clone(t: TLV) returns (cloned: TLV)
    requires AllTagged(t)
    ensures cloned == Normal(t)
    decreases t
  {
    if IsPrimitive(t) {
      return TLV(t.tag, t.value, []);
    }
    var children := [];
    var i := 0;
    while i < |t.children|
      invariant i <= |t.children| && ChildrenTagged(t.children[i..])
      invariant NormalChildren(t.children) == children + NormalChildren(t.children[i..])
    {
      assert t.children[i..][1..] == t.children[i + 1..];
      if t.children[i].TLV? {
        var child := Clone(t.children[i]);
        children := children + [child];
      }
      i := i + 1;
    }
    assert t.children[i..] == [];
    cloned := TLV(t.tag, [], children);
  }
}
