/** The GIF raster decoder: `stbi__out_gif_code` and `stbi__process_gif_raster`. */
module Gif {
  import opened Shifts
  import opened BitStream
  import opened GifRaster
  import opened Lzw
  import opened Wrappers

  /** The local variables of the raster loop that go from one code to the next. */
  datatype Locals = Locals(codesize: nat, avail: nat, oldcode: int, first: bool) {
    ghost predicate Matches(s: State) {
      codesize == s.width && avail == |s.dict| && oldcode == s.prev && first == !s.started
    }
  }

  /** All local variables of the raster loop. */
  datatype LoopState = LoopState(l: Locals, bits: nat, valid_bits: nat, len: nat) {
    /** The buffer holds the next `valid_bits` bits of the payload, of which `k` bytes have been read. */
    ghost predicate Holds(payload: seq<Byte>, pos: nat, k: nat) {
      bits == Peek(Unpack(payload), pos, valid_bits) && 8 * k == pos + valid_bits && k <= |payload|
    }
  }

  /** What the bytes from `p` on, a code size and sub-blocks, denote. */
  ghost function Rendering(data: seq<Byte>, p: nat): Result
    requires ByteAt(data, p) <= 12
  {
    var cs := ByteAt(data, p);
    CodeSizes(cs);
    Decode(Shl(1, cs), cs, Unpack(Payload(data, p + 1)), 0, Fresh(Shl(1, cs), cs, false))
  }

  /** A position in the file, or its end. */
  function Clamp(data: seq<Byte>, p: nat): nat {
    if p < |data| then p else |data|
  }

  /** Where the sub-blocks from `p` on end, after the empty one. */
  function AfterBlocks(data: seq<Byte>, p: nat): nat
    decreases |data| - p
  {
    if p >= |data| then |data|
    else if data[p] == 0 then p + 1
    else AfterBlocks(data, p + 1 + data[p])
  }

  lemma CodeSizes(cs: nat)
    requires cs <= 12
    ensures 0 < Shl(1, cs) && Shl(1, cs) + 2 <= TABLE_SIZE
    ensures Ok(Shl(1, cs), Fresh(Shl(1, cs), cs, false))
  {
    ShlOne(cs);
    Pow2Values();
    Pow2Mono(cs, 12);
    var s := Fresh(Shl(1, cs), cs, false);
    assert s.dict[..Shl(1, cs) + 2] == Roots(Shl(1, cs));
  }

  lemma FirstByte(data: seq<Byte>, start: nat, img: nat)
    requires img == start + 1 || (img == start && img >= |data|)
    ensures Payload(data, img) == Payload(data, start + 1)
  {
  }

  /** The whole result is what is drawn already, followed by the rest. */
  ghost predicate Follows(whole: Result, drawn: seq<Byte>, rest: Result) {
    whole.syms == drawn + rest.syms && whole.ok == rest.ok
  }

  lemma DrawnNothing(f: Frame, palette: seq<Byte>, r: Raster)
    requires Fits(f, r) && |palette| == 1024
    ensures PutAll(f, palette, r, []) == r
  {
  }

  /** With fewer bits left than a code has, decoding is over. */
  lemma DecodeStops(clear: nat, cs: nat, bits: seq<Bit>, pos: nat, s: State, whole: Result, drawn: seq<Byte>)
    requires Ok(clear, s) && cs <= 12 && clear + 2 <= TABLE_SIZE && clear > 0 && pos + s.width > |bits|
    requires Follows(whole, drawn, Decode(clear, cs, bits, pos, s))
    ensures whole.ok && whole.syms == drawn
  {
    assert drawn + [] == drawn;
  }

  lemma DecodeUnfold(clear: nat, cs: nat, bits: seq<Bit>, pos: nat, s: State)
    requires Ok(clear, s) && cs <= 12 && clear + 2 <= TABLE_SIZE && clear > 0 && pos + s.width <= |bits|
    ensures var o := OnCode(clear, cs, s, Peek(bits, pos, s.width));
      match o
      case Error => Decode(clear, cs, bits, pos, s) == Result([], false)
      case End => Decode(clear, cs, bits, pos, s) == Result([], true)
      case Next(t, w) =>
        && Ok(clear, t)
        && Follows(Decode(clear, cs, bits, pos, s), w, Decode(clear, cs, bits, pos + s.width, t))
  {
    OnCodeOk(clear, cs, s, Peek(bits, pos, s.width));
  }

  /** What is left starts with the next file byte, or, between sub-blocks, with a length. */
  lemma RestStep(data: seq<Byte>, p: nat, len: nat)
    ensures len > 0 ==> Rest(data, p, len) == [ByteAt(data, p)] + Rest(data, p + 1, len - 1)
    ensures len == 0 ==> Rest(data, p, len) == Payload(data, p)
    ensures ByteAt(data, p) == 0 ==> Payload(data, p) == []
    ensures ByteAt(data, p) > 0 ==> Payload(data, p) == Rest(data, p + 1, ByteAt(data, p))
    ensures p >= |data| ==> ByteAt(data, p) == 0 && Rest(data, p, len) == Rest(data, p + 1, len)
  {
    if len > 0 {
      assert FileBytes(data, p, len) == [ByteAt(data, p)] + FileBytes(data, p + 1, len - 1);
    } else {
      assert FileBytes(data, p, 0) == [];
    }
    if p >= |data| {
      forall i | 0 <= i < len
        ensures FileBytes(data, p, len)[i] == FileBytes(data, p + 1, len)[i]
      {
      }
      assert FileBytes(data, p, len) == FileBytes(data, p + 1, len);
      assert Payload(data, p + len) == Payload(data, p + 1 + len) == [];
    }
  }

  lemma ByteIntoBuffer(payload: seq<Byte>, pos: nat, k: nat, st: LoopState)
    requires st.Holds(payload, pos, k)
    ensures k < |payload| ==>
      st.bits + Shl(payload[k], st.valid_bits) == Peek(Unpack(payload), pos, st.valid_bits + 8)
  {
    if k < |payload| {
      PeekAppend(Unpack(payload), pos, st.valid_bits, 8);
      PeekByte(payload, k);
    }
  }

  lemma HoldsBound(st: LoopState, payload: seq<Byte>, pos: nat, k: nat)
    requires st.Holds(payload, pos, k)
    ensures pos + st.valid_bits == 8 * k && k <= |payload| && |Unpack(payload)| == 8 * |payload|
  {
  }

  lemma WidthPositive(clear: nat, s: State)
    requires Ok(clear, s)
    ensures s.width > 0
  {
  }

  lemma FollowsMore(whole: Result, drawn: seq<Byte>, w: seq<Byte>, now: Result, next: Result)
    requires Follows(whole, drawn, now) && Follows(now, w, next)
    ensures Follows(whole, drawn + w, next)
  {
    assert drawn + (w + next.syms) == (drawn + w) + next.syms;
  }

  lemma CodeTaken(payload: seq<Byte>, pos: nat, k: nat, st: LoopState, l: Locals)
    requires st.Holds(payload, pos, k) && st.l.codesize <= st.valid_bits
    ensures var after := LoopState(l, Shr(st.bits, st.l.codesize), st.valid_bits - st.l.codesize, st.len);
      after.Holds(payload, pos + st.l.codesize, k)
  {
    CodeFromBuffer(payload, pos, k, st);
  }

  lemma CodeFromBuffer(payload: seq<Byte>, pos: nat, k: nat, st: LoopState)
    requires st.Holds(payload, pos, k) && st.l.codesize <= st.valid_bits
    ensures Low(st.bits, st.l.codesize) == Peek(Unpack(payload), pos, st.l.codesize)
    ensures Shr(st.bits, st.l.codesize) == Peek(Unpack(payload), pos + st.l.codesize, st.valid_bits - st.l.codesize)
    ensures pos + st.l.codesize <= |Unpack(payload)|
  {
    PeekMaskShift(Unpack(payload), pos, st.valid_bits, st.l.codesize);
  }

  class GifDecoder {
    const frame: Frame
    const color_table: seq<Byte>

    const prefix: array<int>
    const first: array<Byte>
    const suffix: array<Byte>

    const out: array<Byte>
    const history: array<Byte>

    const line_size: nat
    const start_x: nat
    const start_y: nat
    const max_x: nat
    const max_y: nat
    var cur_x: nat
    var cur_y: nat
    var step: nat
    var parse: nat

    /** The file and the position in it. */
    const data: seq<Byte>
    var img: nat

    /** The same place as `cur_x` and `cur_y`, in pixels. */
    ghost var cur: Cursor

    /** The set-up of a frame: `stbi__gif_load_next`, image descriptor. */
    constructor (data: seq<Byte>, img: nat, f: Frame, interlaced: bool, color_table: seq<Byte>, out: array<Byte>,
                 history: array<Byte>)
      requires f.Inside() && |color_table| == 1024 && out != history
      requires history.Length == f.w * f.h && out.Length == 4 * (f.w * f.h)
      ensures this.data == data && this.img == img && frame == f && this.color_table == color_table
      ensures this.out == out && this.history == history && fresh(prefix) && fresh(first) && fresh(suffix)
      ensures RasterOk() && TableShape() && cur == First(f, interlaced)
    {
      this.data, this.img, frame, this.color_table := data, img, f, color_table;
      this.out, this.history := out, history;
      prefix := new int[TABLE_SIZE];
      first := new Byte[TABLE_SIZE];
      suffix := new Byte[TABLE_SIZE];
      line_size := f.w * 4;
      start_x := f.x0 * 4;
      start_y := f.y0 * (f.w * 4);
      max_x := f.x0 * 4 + f.fw * 4;
      max_y := f.y0 * (f.w * 4) + f.fh * (f.w * 4);
      cur_x := f.x0 * 4;
      cur_y := if f.fw == 0 then f.y0 * (f.w * 4) + f.fh * (f.w * 4) else f.y0 * (f.w * 4);
      step := if interlaced then 8 * (f.w * 4) else f.w * 4;
      parse := if interlaced then 3 else 0;
      cur := First(f, interlaced);
      new;
      SumTimes(f.y0, f.fh, line_size);
      SumTimes(f.y0, 0, line_size);
    }

    predicate TableShape() {
      && prefix.Length == TABLE_SIZE && first.Length == TABLE_SIZE && suffix.Length == TABLE_SIZE
      && first != suffix && out !in {first, suffix} && history !in {first, suffix}
    }

    /** The byte coordinates are those of the ghost cursor. */
    ghost predicate RasterOk()
      reads `cur_x, `cur_y, `step, `parse, `cur, out, history
    {
      RasterOkAt(cur_x)
    }

    ghost predicate RasterOkAt(x: nat)
      reads `cur_y, `step, `parse, `cur, out, history
    {
      && out != history && |color_table| == 1024
      && line_size == 4 * frame.w && start_x == 4 * frame.x0 && max_x == 4 * (frame.x0 + frame.fw)
      && start_y == frame.y0 * line_size && max_y == (frame.y0 + frame.fh) * line_size
      && x == 4 * (frame.x0 + cur.col) && cur_y == (frame.y0 + cur.row) * line_size
      && step == cur.step * line_size && parse == cur.parse
      && (line_size == 0 ==> cur.row >= frame.fh)
      && Fits(frame, Now())
    }

    ghost function Now(): Raster
      reads `cur, out, history
    {
      Raster(out[..], history[..], cur)
    }

    /** Comparing byte offsets of rows is comparing rows. */
    lemma RowCompare(row: nat)
      requires line_size > 0
      ensures (frame.y0 + row) * line_size >= (frame.y0 + frame.fh) * line_size <==> row >= frame.fh
    {
      TimesMono(frame.y0 + row, frame.y0 + frame.fh, line_size);
      TimesMono(frame.y0 + frame.fh, frame.y0 + row + 1, line_size);
      assert (frame.y0 + row + 1) * line_size == (frame.y0 + row) * line_size + line_size;
    }

    /** What `stbi__out_gif_code` does with the symbol of one entry. */
    method PutSymbol(sym: Byte)
      requires RasterOk()
      modifies `cur_x, `cur_y, `step, `parse, `cur, out, history
      ensures RasterOk() && Now() == Put(frame, color_table, old(Now()), sym)
    {
      hide Put;
      if line_size > 0 {
        RowCompare(cur.row);
      }
      PutDone(frame, color_table, Now(), sym);
      if cur_y >= max_y {
        return;
      }
      var idx := cur_x + cur_y;
      ghost var i := Index(frame, cur);
      ByteIndex(frame.y0 + cur.row, frame.x0 + cur.col, frame.w);
      assert idx == 4 * i;
      ghost var o, h := out[..], history[..];
      history[idx / 4] := 1;
      var c := 4 * sym;
      if color_table[c + 3] > 128 {
        out[idx] := color_table[c + 2];
        out[idx + 1] := color_table[c + 1];
        out[idx + 2] := color_table[c];
        out[idx + 3] := color_table[c + 3];
      }
      assert out[..] == PutPixel(o, i, color_table, sym);
      assert history[..] == h[i := 1];
      MoveOn();
    }

    /** The cursor moves to the next pixel. */
    method MoveOn()
      requires RasterOk() && cur.row < frame.fh
      modifies `cur_x, `cur_y, `step, `parse, `cur
      ensures RasterOk() && cur == Advance(frame, old(cur))
    {
      cur_x := cur_x + 4;
      if cur_x >= max_x {
        LineDown();
        ghost var next := cur;
        RowCompare(cur.row);
        while cur_y >= max_y && parse > 0
          invariant RasterOk() && cur.col < frame.fw
          invariant NextPass(frame, cur) == NextPass(frame, next)
          invariant cur_y >= max_y <==> cur.row >= frame.fh
          decreases parse
        {
          PassStart();
          RowCompare(cur.row);
        }
      } else {
        cur := cur.(col := cur.col + 1);
      }
    }

    /** The cursor goes to the start of the line one step down. */
    method LineDown()
      requires cur.row < frame.fh && cur_x == 4 * (frame.x0 + cur.col + 1)
      requires cur.col < frame.fw && RasterOkAt(4 * (frame.x0 + cur.col)) && line_size > 0
      modifies `cur_x, `cur_y, `cur
      ensures RasterOk() && cur == Cursor(0, old(cur.row + cur.step), old(cur.step), old(cur.parse))
    {
      FitsCursor(frame, out[..], history[..], cur, Cursor(0, cur.row + cur.step, cur.step, cur.parse));
      hide Fits;
      SumTimes(frame.y0 + cur.row, cur.step, line_size);
      cur_x := start_x;
      cur_y := cur_y + step;
      cur := Cursor(0, cur.row + cur.step, cur.step, cur.parse);
    }

    /** The cursor goes to the first line of the next pass. */
    method PassStart()
      requires RasterOk() && cur.col < frame.fw && cur.parse > 0 && line_size > 0
      modifies `cur_y, `step, `parse, `cur
      ensures RasterOk()
      ensures cur == Cursor(old(cur.col), Power(old(cur.parse)) / 2, Power(old(cur.parse)), old(cur.parse) - 1)
    {
      ghost var next := Cursor(cur.col, Power(cur.parse) / 2, Power(cur.parse), cur.parse - 1);
      FitsCursor(frame, out[..], history[..], cur, next);
      hide Fits;
      ShiftIsPower(parse);
      step := Shl(1, parse) * line_size;
      cur_y := start_y + step / 2;
      parse := parse - 1;
      cur := next;
      HalfTimes(cur.row, line_size);
      SumTimes(frame.y0, cur.row, line_size);
    }

    /** The entries of the linked table spell the strings of the dictionary, backwards. */
    ghost predicate Entry(clear: nat, dict: seq<seq<Byte>>, i: nat)
      requires TableShape() && i < |dict| <= TABLE_SIZE
      reads prefix, first, suffix
    {
      && dict[i] != [] && first[i] == dict[i][0]
      && if prefix[i] < 0 then dict[i] == [suffix[i]]
         else HasString(clear, i, prefix[i]) && dict[i] == dict[prefix[i]] + [suffix[i]]
    }

    ghost predicate Codes(clear: nat, dict: seq<seq<Byte>>)
      reads prefix, first, suffix
    {
      && TableShape() && |dict| <= TABLE_SIZE
      && forall i: nat :: i < |dict| && HasString(clear, |dict|, i) ==> Entry(clear, dict, i)
    }

    /** `stbi__out_gif_code`: follows the prefixes to the root, then draws the whole string in order. */
    method OutGifCode(code: nat, ghost clear: nat, ghost dict: seq<seq<Byte>>)
      requires RasterOk() && Codes(clear, dict) && HasString(clear, |dict|, code)
      modifies `cur_x, `cur_y, `step, `parse, `cur, out, history
      ensures RasterOk() && Codes(clear, dict)
      ensures Now() == PutAll(frame, color_table, old(Now()), dict[code])
      decreases code
    {
      hide Put, Fits;
      assert Entry(clear, dict, code);
      if prefix[code] >= 0 {
        OutGifCode(prefix[code], clear, dict);
      }
      assert dict[code][..|dict[code]| - 1] == if prefix[code] >= 0 then dict[prefix[code]] else [];
      PutSymbol(suffix[code]);
    }

    method Get8() returns (b: Byte)
      modifies `img
      ensures b == ByteAt(data, old(img)) && img >= old(img)
      ensures img == old(img) + 1 || (img == old(img) && img >= |data|)
    {
      if img < |data| {
        b := data[img];
        img := img + 1;
      } else {
        b := 0;
      }
    }

    /** The root entries; only the low byte of a code fits `first` and `suffix`. */
    method InitCodes(clear: nat)
      requires TableShape() && clear + 2 <= TABLE_SIZE
      modifies prefix, first, suffix
      ensures Codes(clear, Roots(clear))
    {
      var init_code := 0;
      while init_code < clear
        invariant 0 <= init_code <= clear
        invariant forall i: nat :: i < init_code ==> prefix[i] == -1 && first[i] == i % 256 && suffix[i] == i % 256
      {
        prefix[init_code] := -1;
        first[init_code] := init_code % 256;
        suffix[init_code] := init_code % 256;
        init_code := init_code + 1;
      }
    }

    /** Adding entries never touches the roots, so after a clear code the table is right again. */
    lemma RootsStay(clear: nat, s: State)
      requires Ok(clear, s) && Codes(clear, s.dict)
      ensures Codes(clear, Roots(clear))
    {
      forall i: nat | i < clear + 2 && HasString(clear, clear + 2, i)
        ensures Entry(clear, Roots(clear), i)
      {
        assert Entry(clear, s.dict, i);
        assert Roots(clear)[i] == s.dict[..clear + 2][i] == s.dict[i];
        assert |Roots(clear)[i]| == 1;
      }
    }

    /** A new entry at `avail`. By the time `code` is compared with the number of entries, that number has
        already gone up, so the two are never equal; the entry being made is found through `code` itself. */
    method AddEntry(avail: nat, oldcode: nat, code: nat, ghost clear: nat, ghost s: State)
      requires Ok(clear, s) && Codes(clear, s.dict) && avail == |s.dict| < TABLE_SIZE && oldcode == s.prev
      requires code <= avail && code != clear && code != clear + 1
      modifies prefix, first, suffix
      ensures Codes(clear, Extend(clear, s, code))
    {
      ghost var dict := Extend(clear, s, code);
      assert Entry(clear, s.dict, oldcode);
      assert code < avail ==> Entry(clear, s.dict, code);
      var next := avail + 1;
      prefix[avail] := oldcode;
      first[avail] := first[oldcode];
      if code == next {
        assert false;
      } else {
        suffix[avail] := first[code];
      }
      forall i: nat | i < |dict| && HasString(clear, |dict|, i)
        ensures Entry(clear, dict, i)
      {
        if i < avail {
          assert dict[i] == dict[..avail][i];
          assert old(Entry(clear, s.dict, i));
          if prefix[i] >= 0 {
            assert dict[prefix[i]] == dict[..avail][prefix[i]];
          }
        } else {
          assert dict[oldcode] == dict[..avail][oldcode];
        }
      }
    }

    /** One code of the stream. */
    method HandleCode(code: nat, l: Locals, clear: nat, cs: nat, ghost s: State)
      returns (r: Progress, l': Locals, ghost s': State)
      requires RasterOk() && Ok(clear, s) && Codes(clear, s.dict) && l.Matches(s)
      requires cs <= 12 && clear + 2 <= TABLE_SIZE && clear > 0
      modifies `cur_x, `cur_y, `step, `parse, `cur, prefix, first, suffix, out, history
      ensures RasterOk()
      ensures match OnCode(clear, cs, s, code)
        case Error => r == Bad && Now() == old(Now())
        case End => r == Done && Now() == old(Now())
        case Next(t, w) =>
          && r == More && s' == t && l'.Matches(t) && Codes(clear, t.dict)
          && Now() == PutAll(frame, color_table, old(Now()), w)
    {
      hide Low, Put, Fits, Entry, Roots;
      s', l' := s, l;
      if code == clear {
        RootsStay(clear, s);
        return More, Locals(cs + 1, clear + 2, -1, false), Fresh(clear, cs, true);
      }
      if code == clear + 1 {
        return Done, l, s;
      }
      if code > l.avail {
        return Bad, l, s;
      }
      if l.first {
        return Bad, l, s;
      }
      var avail := l.avail;
      ghost var dict := s.dict;
      if l.oldcode >= 0 {
        if avail + 1 > TABLE_SIZE {
          return Bad, l, s;
        }
        AddEntry(avail, l.oldcode, code, clear, s);
        dict := Extend(clear, s, code);
        avail := avail + 1;
      } else if code == avail {
        return Bad, l, s;
      }
      OutGifCode(code, clear, dict);
      var codesize := l.codesize;
      if Low(avail, codesize) == 0 && avail <= 0x0FFF {
        codesize := codesize + 1;
      }
      r, l', s' := More, Locals(codesize, avail, code, l.first), State(dict, code, codesize, true);
    }

    /** `stbi__process_gif_raster`: draws the symbols that the sub-blocks denote. */
    method ProcessGifRaster() returns (ok: bool, ghost r: Result)
      requires RasterOk() && TableShape()
      modifies this, prefix, first, suffix, out, history
      ensures RasterOk()
      ensures ByteAt(data, old(img)) > 12 ==> !ok && Now() == old(Now())
      ensures ByteAt(data, old(img)) <= 12 ==>
        r == Rendering(data, old(img)) && ok == r.ok && Now() == PutAll(frame, color_table, old(Now()), r.syms)
      ensures ok ==> Clamp(data, img) == AfterBlocks(data, old(img) + 1)
    {
      hide PutAll, Payload, Unpack, Fits, Decode, RasterOk;
      r := Result([], false);
      ghost var start := img;
      var lzw_cs: nat := Get8();
      if lzw_cs > 12 {
        return false, r;
      }
      r := Rendering(data, start);
      CodeSizes(lzw_cs);
      var clear := Shl(1, lzw_cs);
      InitCodes(clear);
      FirstByte(data, start, img);
      ok := DecodeCodes(clear, lzw_cs, Payload(data, img));
    }

    /** The loop over bytes and codes. `payload` is what the sub-blocks contain. */
    method DecodeCodes(clear: nat, lzw_cs: nat, ghost payload: seq<Byte>) returns (ok: bool)
      requires RasterOk() && Codes(clear, Roots(clear)) && payload == Payload(data, img)
      requires lzw_cs <= 12 && 0 < clear && clear + 2 <= TABLE_SIZE && Ok(clear, Fresh(clear, lzw_cs, false))
      modifies this, prefix, first, suffix, out, history
      ensures RasterOk()
      ensures var r := Decode(clear, lzw_cs, Unpack(payload), 0, Fresh(clear, lzw_cs, false));
        ok == r.ok && Now() == PutAll(frame, color_table, old(Now()), r.syms)
      ensures ok ==> Clamp(data, img) == AfterBlocks(data, old(img))
    {
      hide Put, PutAll, Fits, Codes, Ok, Unpack, Peek, Payload, Fresh, Decode, OnCode, LoopState.Holds;
      hide RasterOk, AfterBlocks;
      ghost var r0 := Now();
      ghost var whole := Decode(clear, lzw_cs, Unpack(payload), 0, Fresh(clear, lzw_cs, false));
      var st := StartLoop(clear, lzw_cs, payload);
      ghost var s, pos, k := Fresh(clear, lzw_cs, false), 0, 0;
      ghost var drawn: seq<Byte> := [];
      RasterFits();
      DrawnNothing(frame, color_table, r0);
      RestStep(data, img, 0);
      while true
        invariant RasterOk() && Ok(clear, s) && Codes(clear, s.dict) && st.l.Matches(s)
        invariant k <= |payload| && st.Holds(payload, pos, k) && payload[k..] == Rest(data, img, st.len)
        invariant AfterBlocks(data, img + st.len) == AfterBlocks(data, old(img))
        invariant Fits(frame, r0) && Now() == PutAll(frame, color_table, r0, drawn)
        invariant Follows(whole, drawn, Decode(clear, lzw_cs, Unpack(payload), pos, s))
        decreases 16 * |payload| - 8 * k - pos
      {
        HoldsBound(st, payload, pos, k);
        if st.valid_bits < st.l.codesize {
          var more;
          more, st := FeedByte(st, payload, pos, k);
          if !more {
            DecodeStops(clear, lzw_cs, Unpack(payload), pos, s, whole, drawn);
            return true;
          }
          k := k + 1;
        } else {
          CodeFromBuffer(payload, pos, k, st);
          var code, width := Low(st.bits, st.l.codesize), st.l.codesize;
          DecodeUnfold(clear, lzw_cs, Unpack(payload), pos, s);
          WidthPositive(clear, s);
          ghost var before := s;
          var p, l;
          p, l, s := HandleCode(code, st.l, clear, lzw_cs, s);
          if p != More {
            assert drawn + [] == drawn;
            if p == Done {
              SkipBlocks(st.len);
            }
            return p == Done;
          }
          ghost var w := OnCode(clear, lzw_cs, before, code).emitted;
          PutAllAppend(frame, color_table, r0, drawn, w);
          FollowsMore(whole, drawn, w, Decode(clear, lzw_cs, Unpack(payload), pos, before),
                      Decode(clear, lzw_cs, Unpack(payload), pos + width, s));
          drawn := drawn + w;
          CodeTaken(payload, pos, k, st, l);
          st := LoopState(l, Shr(st.bits, width), st.valid_bits - width, st.len);
          pos := pos + width;
        }
      }
    }

    lemma RasterFits()
      requires RasterOk()
      ensures Fits(frame, Now()) && |color_table| == 1024
    {
    }

    /** Reads one byte of the sub-blocks into the bit buffer; false at their end. */
    method FeedByte(st: LoopState, ghost payload: seq<Byte>, ghost pos: nat, ghost k: nat)
      returns (more: bool, st': LoopState)
      requires k <= |payload| && st.Holds(payload, pos, k) && payload[k..] == Rest(data, img, st.len)
      modifies `img
      ensures !more ==> k == |payload|
      ensures more ==> k < |payload| && st'.Holds(payload, pos, k + 1) && payload[k + 1..] == Rest(data, img, st'.len)
      ensures more ==> st'.l == st.l && AfterBlocks(data, img + st'.len) == AfterBlocks(data, old(img) + st.len)
      ensures !more ==> Clamp(data, img) == AfterBlocks(data, old(img) + st.len)
    {
      hide Unpack, Peek, Payload, FileBytes, Rest;
      st' := st;
      RestStep(data, img, st'.len);
      if st'.len == 0 {
        var len := Get8();
        if len == 0 {
          return false, st';
        }
        st' := st'.(len := len);
        RestStep(data, img, st'.len);
      }
      ghost var tail := payload[k..];
      assert tail != [] && payload[k] == tail[0] && payload[k + 1..] == tail[1..];
      ByteIntoBuffer(payload, pos, k, st);
      RestStep(data, img, st'.len - 1);
      var b := Get8();
      st' := LoopState(st'.l, st'.bits + Shl(b, st'.valid_bits), st'.valid_bits + 8, st'.len - 1);
      more := true;
    }

    /** The end-of-stream code: what is left of the sub-block and the sub-blocks after it are skipped. */
    method SkipBlocks(len: nat)
      modifies `img
      ensures Clamp(data, img) == AfterBlocks(data, old(img) + len)
    {
      img := img + len;
      ghost var goal := AfterBlocks(data, img);
      var n := Get8();
      while n > 0
        invariant if n > 0 then AfterBlocks(data, img + n) == goal else Clamp(data, img) == goal
        invariant n > 0 ==> img <= |data|
        decreases if n > 0 then |data| - img + 1 else 0
      {
        img := img + n;
        n := Get8();
      }
    }

    method StartLoop(clear: nat, lzw_cs: nat, ghost payload: seq<Byte>) returns (st: LoopState)
      ensures st == LoopState(Locals(lzw_cs + 1, clear + 2, -1, true), 0, 0, 0)
      ensures st.Holds(payload, 0, 0) && st.l.Matches(Fresh(clear, lzw_cs, false))
      ensures Fresh(clear, lzw_cs, false).dict == Roots(clear)
    {
      st := LoopState(Locals(lzw_cs + 1, clear + 2, -1, true), 0, 0, 0);
    }
  }

  lemma SumTimes(a: nat, b: nat, c: nat)
    ensures (a + b) * c == a * c + b * c
  {
  }

  lemma TimesMono(a: nat, b: nat, c: nat)
    ensures a <= b ==> a * c <= b * c
    ensures a < b ==> a * c + c <= b * c
  {
    if a < b {
      assert (a + 1) * c <= b * c;
      assert (a + 1) * c == a * c + c;
    }
  }

  /** The byte offset of a pixel of a canvas of width `w`. */
  lemma ByteIndex(y: nat, x: nat, w: nat)
    ensures 4 * x + y * (4 * w) == 4 * (y * w + x)
  {
  }

  lemma FitsCursor(f: Frame, out: seq<Byte>, history: seq<Byte>, c: Cursor, c': Cursor)
    requires Fits(f, Raster(out, history, c)) && c'.parse <= 3 && c'.col < f.fw
    ensures Fits(f, Raster(out, history, c'))
  {
  }

  lemma ShiftIsPower(parse: nat)
    requires 1 <= parse <= 3
    ensures Shl(1, parse) == Power(parse)
  {
    ShlOne(parse);
    Pow2Values();
  }

  /** Half of an even number of lines. */
  lemma HalfTimes(row: nat, line: nat)
    ensures (2 * row) * line / 2 == row * line
  {
    assert (2 * row) * line == 2 * (row * line);
  }

  lemma PutDone(f: Frame, palette: seq<Byte>, r: Raster, sym: Byte)
    requires Fits(f, r) && |palette| == 1024
    ensures r.cur.row >= f.fh ==> Put(f, palette, r, sym) == r
    ensures r.cur.row < f.fh ==>
      Put(f, palette, r, sym)
      == Raster(PutPixel(r.out, Index(f, r.cur), palette, sym), r.history[Index(f, r.cur) := 1], Advance(f, r.cur))
  {
  }
}
