/**
 * Buffered printing: one growing buffer that every part of the text is appended to. The result is, byte for byte,
 * the text that `Printing.Print` defines, whatever the first size of the buffer.
 */
module PrintBuffers {
  import opened Bytes
  import opened CMemory
  import opened Numerals
  import opened PowersOfTwo
  import opened Printing
  import opened Sequences
  import opened Strings
  import opened Trees

  /** The largest buffer that rounding up to a power of two can give without overflow. */
  const MAX_SIZE: nat := 0x4000_0000
  /** What a 32-bit number reserves. */
  const NUMBER_SIZE: nat := 21

  lemma {:induction false} DigitsBound(n: nat, k: nat)
    requires n < TenTo(k) && 0 < k
    ensures 0 < |Digits(n)| <= k
  {
    if n >= 10 {
      DigitsBound(n / 10, k - 1);
    }
  }

  function TenTo(k: nat): nat {
    if k == 0 then 1 else 10 * TenTo(k - 1)
  }

  lemma DecimalFits(n: int)
    requires -0x8000_0000 <= n < 0x8000_0000
    ensures |Decimal(n)| + 1 <= NUMBER_SIZE
  {
    assert TenTo(10) == 10_000_000_000;
    DigitsBound(if n < 0 then -n else n, 10);
  }

  class PrintBuffer {
    var buffer: array<byte>
    var length: nat
    var offset: nat

    constructor (prebuffer: nat)
      requires 0 < prebuffer
      ensures Valid() && length == prebuffer && offset == 0 && fresh(buffer) && Holds(buffer, [])
    {
      buffer := new byte[prebuffer];
      length := prebuffer;
      offset := 0;
    }

    ghost predicate Valid()
      reads this
    {
      length == buffer.Length && offset <= length
    }

    /** `ensure`: makes room for `needed` bytes at the offset and keeps all that the buffer holds. */
    method Ensure(needed: nat)
      requires Valid() && 0 < offset + needed <= MAX_SIZE
      modifies this`buffer, this`length
      ensures Valid() && offset + needed <= length && (buffer == old(buffer) || fresh(buffer))
      ensures old(length) <= length && buffer[..old(length)] == old(buffer[..])
      ensures length == old(length) || (old(length) < offset + needed && RoundsUp(offset + needed, length))
    {
      if offset + needed <= length {
        return;
      }
      var newSize := Pow2gt(offset + needed);
      var newBuffer := new byte[newSize];
      var i: nat := 0;
      while i < length
        invariant buffer == old(buffer) && length == old(length) && buffer[..] == old(buffer[..])
        invariant i <= length && newBuffer[..i] == buffer[..i]
      {
        newBuffer[i] := buffer[i];
        i := i + 1;
      }
      length := newSize;
      buffer := newBuffer;
    }

    /** `update`: the end of the terminated text at the offset. */
    method Update(ghost w: seq<byte>, ghost text: CString) returns (r: nat)
      requires Valid() && Holds(buffer, w + text + [0]) && |w| <= offset <= |w| + |text|
      ensures r == |w| + |text|
    {
      var n := StrLen(buffer, offset, w, text);
      r := offset + n;
    }

    /** Moves past the text that was just printed. */
    method Advance(ghost w: seq<byte>, ghost text: CString)
      requires Valid() && Holds(buffer, w + text + [0]) && |w| <= offset <= |w| + |text|
      modifies this`offset
      ensures Valid() && Holds(buffer, w + text) && offset == |w| + |text|
    {
      offset := Update(w, text);
      assert w + text == (w + text + [0])[..|w| + |text|];
    }

    /** Reserves `needed` bytes, writes `s` and a terminator; the offset stays before `s`. */
    method Write(s: CString, needed: nat, ghost w: seq<byte>)
      requires Valid() && Holds(buffer, w) && |w| == offset && |s| + 1 <= needed && offset + needed <= MAX_SIZE
      modifies this`buffer, this`length, buffer
      ensures Valid() && Holds(buffer, w + s + [0]) && (buffer == old(buffer) || fresh(buffer))
    {
      Ensure(needed);
      assert Holds(buffer, w) by {
        assert buffer[..|w|] == buffer[..old(length)][..|w|];
      }
      PutAll(buffer, offset, s, w);
      Put(buffer, offset + |s|, 0, w + s);
    }

    /** Writes `s` and moves past it. */
    method Append(s: CString, needed: nat, ghost w: seq<byte>)
      requires Valid() && Holds(buffer, w) && |w| == offset && |s| <= needed && 0 < offset + needed <= MAX_SIZE
      modifies this, buffer
      ensures Valid() && Holds(buffer, w + s) && offset == |w| + |s| && (buffer == old(buffer) || fresh(buffer))
    {
      Ensure(needed);
      assert Holds(buffer, w) by {
        assert buffer[..|w|] == buffer[..old(length)][..|w|];
      }
      PutAll(buffer, offset, s, w);
      offset := offset + |s|;
    }

    /** `print_string_ptr` with a buffer. */
    method PrintString(s: CString, ghost w: seq<byte>)
      requires Valid() && Holds(buffer, w) && |w| == offset && offset + |Quoted(s)| + 1 <= MAX_SIZE
      modifies this`buffer, this`length, buffer
      ensures Valid() && Holds(buffer, w + Quoted(s) + [0]) && (buffer == old(buffer) || fresh(buffer))
    {
      var plain, needed := QuotedSize(s);
      Ensure(needed);
      assert Holds(buffer, w) by {
        assert buffer[..|w|] == buffer[..old(length)][..|w|];
      }
      PutQuoted(buffer, offset, s, plain, w);
    }

    /** `print_value` with a buffer: the text of `t`, terminated, follows what is written so far. */
    method PrintValue(t: Json, depth: nat, fmt: bool, ghost w: seq<byte>)
      requires Valid() && Holds(buffer, w) && |w| == offset && Printable(t)
      requires offset + |Print(t, depth, fmt)| + NUMBER_SIZE <= MAX_SIZE
      modifies this, buffer
      ensures Valid() && Holds(buffer, w + Print(t, depth, fmt) + [0]) && (buffer == old(buffer) || fresh(buffer))
      ensures |w| <= offset <= |w| + |Print(t, depth, fmt)|
      decreases t, 3
    {
      match t
      case Null => Write(NULL_TEXT, 5, w);
      case False => Write(FALSE_TEXT, 6, w);
      case True => Write(TRUE_TEXT, 5, w);
      case Number(d) => PrintNumber(d, w);
      case String(s) => PrintString(s, w);
      case Array(xs) => PrintArray(t, depth, fmt, w);
      case Object(ms) => PrintObject(t, depth, fmt, w);
    }

    method PrintNumber(d: real, ghost w: seq<byte>)
      requires Valid() && Holds(buffer, w) && |w| == offset && Int32(d) && offset + NUMBER_SIZE <= MAX_SIZE
      modifies this`buffer, this`length, buffer
      ensures Valid() && Holds(buffer, w + Decimal(d.Floor) + [0]) && (buffer == old(buffer) || fresh(buffer))
    {
      if d == 0.0 {
        Write([ZERO], 2, w);
      } else {
        DecimalFits(d.Floor);
        Write(Decimal(d.Floor), NUMBER_SIZE, w);
      }
    }

    method PrintArray(t: Json, depth: nat, fmt: bool, ghost w: seq<byte>)
      requires t.Array? && Valid() && Holds(buffer, w) && |w| == offset && Printable(t)
      requires offset + |Print(t, depth, fmt)| + NUMBER_SIZE <= MAX_SIZE
      modifies this, buffer
      ensures Valid() && Holds(buffer, w + Print(t, depth, fmt) + [0]) && (buffer == old(buffer) || fresh(buffer))
      ensures |w| <= offset <= |w| + |Print(t, depth, fmt)|
      decreases t, 2
    {
      hide Print, PrintItems, ItemText;
      var xs := t.items;
      ArrayText(t, depth, fmt);
      if xs == [] {
        Write([LBRACKET, RBRACKET], 3, w);
        return;
      }
      Append([LBRACKET], 1, w);
      ghost var done: CString := [LBRACKET];
      var i := 0;
      assert xs[0..] == xs;
      while i < |xs|
        invariant i <= |xs| && PrintableItems(xs[i..])
        invariant Valid() && (buffer == old(buffer) || fresh(buffer))
        invariant Holds(buffer, w + done) && offset == |w| + |done|
        invariant done + PrintItems(xs[i..], depth + 1, fmt) + [RBRACKET] == Print(t, depth, fmt)
      {
        ItemsStep(xs, i, depth + 1, fmt, done);
        PrintItem(t, i, depth + 1, fmt, w + done);
        Associative(w, done, ItemText(xs[i], i + 1 < |xs|, depth + 1, fmt));
        done := done + ItemText(xs[i], i + 1 < |xs|, depth + 1, fmt);
        i := i + 1;
      }
      NoItems(depth + 1, fmt, done);
      Write([RBRACKET], 2, w + done);
      Associative(w, done, [RBRACKET]);
    }

    /** One turn of the loop over an array's items. */
    method PrintItem(t: Json, i: nat, depth: nat, fmt: bool, ghost w: seq<byte>)
      requires t.Array? && i < |t.items| && Printable(t.items[i])
      requires Valid() && Holds(buffer, w) && |w| == offset
      requires offset + |ItemText(t.items[i], i + 1 < |t.items|, depth, fmt)| + NUMBER_SIZE <= MAX_SIZE
      modifies this, buffer
      ensures Valid() && (buffer == old(buffer) || fresh(buffer))
      ensures var text := ItemText(t.items[i], i + 1 < |t.items|, depth, fmt);
        Holds(buffer, w + text) && offset == |w| + |text|
      decreases t, 1
    {
      ghost var text := Print(t.items[i], depth, fmt);
      PrintValue(t.items[i], depth, fmt, w);
      Advance(w, text);
      if i + 1 < |t.items| {
        Append([COMMA] + If(fmt, [SPACE]), if fmt then 3 else 2, w + text);
        assert w + text + ([COMMA] + If(fmt, [SPACE])) == w + ItemText(t.items[i], true, depth, fmt);
      } else {
        assert ItemText(t.items[i], false, depth, fmt) == text;
      }
    }

    method PrintObject(t: Json, depth: nat, fmt: bool, ghost w: seq<byte>)
      requires t.Object? && Valid() && Holds(buffer, w) && |w| == offset && Printable(t)
      requires offset + |Print(t, depth, fmt)| + NUMBER_SIZE <= MAX_SIZE
      modifies this, buffer
      ensures Valid() && Holds(buffer, w + Print(t, depth, fmt) + [0]) && (buffer == old(buffer) || fresh(buffer))
      ensures |w| <= offset <= |w| + |Print(t, depth, fmt)|
      decreases t, 2
    {
      hide Print, PrintFields, PrintField, Opening, Closing;
      var ms := t.members;
      ObjectText(t, depth, fmt);
      if ms == [] {
        Write(Opening(fmt) + Closing(depth, fmt), if fmt then depth + 4 else 3, w);
        return;
      }
      Append(Opening(fmt), if fmt then 3 else 2, w);
      ghost var done: CString := Opening(fmt);
      var i := 0;
      assert ms[0..] == ms;
      while i < |ms|
        invariant i <= |ms| && PrintableFields(ms[i..])
        invariant Valid() && (buffer == old(buffer) || fresh(buffer))
        invariant Holds(buffer, w + done) && offset == |w| + |done| && 0 < |done|
        invariant done + PrintFields(ms[i..], depth + 1, fmt) + Closing(depth, fmt) == Print(t, depth, fmt)
      {
        FieldsStep(ms, i, depth + 1, fmt, done);
        PrintMember(t, i, depth + 1, fmt, w + done);
        Associative(w, done, PrintField(ms[i], i + 1 < |ms|, depth + 1, fmt));
        done := done + PrintField(ms[i], i + 1 < |ms|, depth + 1, fmt);
        i := i + 1;
      }
      NoFields(depth + 1, fmt, done);
      Write(Closing(depth, fmt), if fmt then depth + 2 else 2, w + done);
      Associative(w, done, Closing(depth, fmt));
    }

    /** One turn of the loop over an object's members. */
    method PrintMember(t: Json, i: nat, depth: nat, fmt: bool, ghost w: seq<byte>)
      requires t.Object? && i < |t.members| && Printable(t.members[i].value)
      requires Valid() && Holds(buffer, w) && |w| == offset && 0 < offset
      requires offset + |PrintField(t.members[i], i + 1 < |t.members|, depth, fmt)| + NUMBER_SIZE <= MAX_SIZE
      modifies this, buffer
      ensures Valid() && (buffer == old(buffer) || fresh(buffer))
      ensures var text := PrintField(t.members[i], i + 1 < |t.members|, depth, fmt);
        Holds(buffer, w + text) && offset == |w| + |text|
      decreases t, 1
    {
      hide Print, PrintField, Quoted, FieldSeparator, Printable;
      var m, more := t.members[i], i + 1 < |t.members|;
      SeparatorSize(more, fmt);
      FieldSize(m, more, depth, fmt);
      ghost var v := Print(m.value, depth, fmt);
      if fmt {
        Append(Tabs(depth), depth, w);
      }
      ghost var w1 := w + If(fmt, Tabs(depth));
      PrintString(m.name, w1);
      Advance(w1, Quoted(m.name));
      ghost var w2 := w1 + Quoted(m.name);
      Append([COLON] + If(fmt, [TAB]), if fmt then 2 else 1, w2);
      ghost var w3 := w2 + ([COLON] + If(fmt, [TAB]));
      PrintValue(m.value, depth, fmt, w3);
      Advance(w3, v);
      ghost var w4 := w3 + v;
      Append(FieldSeparator(more, fmt), |FieldSeparator(more, fmt)| + 1, w4);
      FieldText(m, more, depth, fmt, w);
    }
  }

  function Opening(fmt: bool): (r: CString)
    ensures |r| == if fmt then 2 else 1
  {
    [LBRACE] + If(fmt, [NEWLINE])
  }

  function Closing(depth: nat, fmt: bool): (r: CString)
    ensures |r| == if fmt then depth + 1 else 1
  {
    If(fmt, Tabs(depth)) + [RBRACE]
  }

  lemma ArrayText(t: Json, depth: nat, fmt: bool)
    requires t.Array? && Printable(t)
    ensures Print(t, depth, fmt) == [LBRACKET] + PrintItems(t.items, depth + 1, fmt) + [RBRACKET]
    ensures t.items == [] ==> Print(t, depth, fmt) == [LBRACKET, RBRACKET]
  {}

  lemma ObjectText(t: Json, depth: nat, fmt: bool)
    requires t.Object? && Printable(t)
    ensures Print(t, depth, fmt) == Opening(fmt) + PrintFields(t.members, depth + 1, fmt) + Closing(depth, fmt)
    ensures t.members == [] ==> Print(t, depth, fmt) == Opening(fmt) + Closing(depth, fmt)
  {}

  lemma NoItems(depth: nat, fmt: bool, done: CString)
    ensures done + PrintItems([], depth, fmt) == done
  {}

  lemma NoFields(depth: nat, fmt: bool, done: CString)
    ensures done + PrintFields([], depth, fmt) == done
  {}

  function ItemText(x: Json, more: bool, depth: nat, fmt: bool): CString
    requires Printable(x)
  {
    Print(x, depth, fmt) + ItemSeparator(more, fmt)
  }

  lemma SeparatorSize(more: bool, fmt: bool)
    ensures |FieldSeparator(more, fmt)| <= 2
  {}

  lemma FieldSize(m: Member, more: bool, depth: nat, fmt: bool)
    requires Printable(m.value)
    ensures |PrintField(m, more, depth, fmt)| == (if fmt then depth + 2 else 1) + |Quoted(m.name)| +
      |Print(m.value, depth, fmt)| + |FieldSeparator(more, fmt)|
  {
    hide Print, Quoted, FieldSeparator;
  }

  lemma ItemsStep(xs: seq<Json>, i: nat, depth: nat, fmt: bool, done: CString)
    requires i < |xs| && PrintableItems(xs[i..])
    ensures Printable(xs[i]) && PrintableItems(xs[i + 1..])
    ensures done + PrintItems(xs[i..], depth, fmt) ==
      done + ItemText(xs[i], i + 1 < |xs|, depth, fmt) + PrintItems(xs[i + 1..], depth, fmt)
  {
    hide Print;
    assert xs[i..][1..] == xs[i + 1..];
  }

  lemma FieldsStep(ms: seq<Member>, i: nat, depth: nat, fmt: bool, done: CString)
    requires i < |ms| && PrintableFields(ms[i..])
    ensures Printable(ms[i].value) && PrintableFields(ms[i + 1..])
    ensures done + PrintFields(ms[i..], depth, fmt) ==
      done + PrintField(ms[i], i + 1 < |ms|, depth, fmt) + PrintFields(ms[i + 1..], depth, fmt)
  {
    hide Print, PrintField;
    assert ms[i..][1..] == ms[i + 1..];
  }

  lemma FieldText(m: Member, more: bool, depth: nat, fmt: bool, w: seq<byte>)
    requires Printable(m.value)
    ensures w + If(fmt, Tabs(depth)) + Quoted(m.name) + ([COLON] + If(fmt, [TAB])) + Print(m.value, depth, fmt) +
      FieldSeparator(more, fmt) == w + PrintField(m, more, depth, fmt)
  {
    hide Print, Quoted, FieldSeparator, Tabs;
  }

  /** `cJSON_PrintBuffered`: the text of the tree, for any first size of the buffer. */
  method PrintBuffered(t: Json, prebuffer: nat, fmt: bool) returns (out: array<byte>)
    requires 0 < prebuffer && Printable(t) && |Print(t, 0, fmt)| + NUMBER_SIZE <= MAX_SIZE
    ensures Text(out, Print(t, 0, fmt))
  {
    var p := new PrintBuffer(prebuffer);
    p.PrintValue(t, 0, fmt, []);
    assert [] + Print(t, 0, fmt) == Print(t, 0, fmt);
    out := p.buffer;
  }
}
