/**
 * Printing without a shared buffer: every value is printed to an array of its own, sized beforehand from the parts.
 */
module PlainPrinting {
  import opened Bytes
  import opened CMemory
  import opened Numerals
  import opened PrintBuffers
  import opened Printing
  import opened Sequences
  import opened Strings
  import opened Trees

  /** What the length computation adds for the items of an array. */
  function ItemsRoom(xs: seq<Json>, depth: nat, fmt: bool): nat
    requires PrintableItems(xs)
  {
    if xs == [] then 0
    else |Print(xs[0], depth, fmt)| + 2 + (if fmt then 1 else 0) + ItemsRoom(xs[1..], depth, fmt)
  }

  /** What the length computation adds for the members of an object. */
  function FieldsRoom(ms: seq<Member>, depth: nat, fmt: bool): nat
    requires PrintableFields(ms)
  {
    if ms == [] then 0
    else FieldRoom(ms[0], depth, fmt) + FieldsRoom(ms[1..], depth, fmt)
  }

  function FieldRoom(m: Member, depth: nat, fmt: bool): nat
    requires Printable(m.value)
  {
    |Print(m.value, depth, fmt)| + |Quoted(m.name)| + 2 + if fmt then 2 + depth else 0
  }

  lemma {:induction false} ItemsFit(xs: seq<Json>, depth: nat, fmt: bool)
    requires PrintableItems(xs)
    ensures |PrintItems(xs, depth, fmt)| <= ItemsRoom(xs, depth, fmt)
  {
    hide Print;
    if xs != [] {
      ItemsFit(xs[1..], depth, fmt);
    }
  }

  lemma {:induction false} FieldsFit(ms: seq<Member>, depth: nat, fmt: bool)
    requires PrintableFields(ms)
    ensures |PrintFields(ms, depth, fmt)| <= FieldsRoom(ms, depth, fmt)
  {
    hide Print, PrintField;
    if ms != [] {
      FieldSize(ms[0], |ms| > 1, depth, fmt);
      SeparatorSize(|ms| > 1, fmt);
      assert !fmt ==> |FieldSeparator(|ms| > 1, fmt)| <= 1;
      FieldsFit(ms[1..], depth, fmt);
    }
  }

  method New(s: CString, size: nat) returns (out: array<byte>)
    requires |s| < size
    ensures fresh(out) && Text(out, s)
  {
    out := new byte[size];
    PutAll(out, 0, s, []);
    assert [] + s == s;
    Put(out, |s|, 0, s);
  }

  method PrintString(s: CString) returns (out: array<byte>)
    ensures fresh(out) && Text(out, Quoted(s)) && out.Length == |Quoted(s)| + 1
  {
    var plain, needed := QuotedSize(s);
    out := new byte[needed];
    PutQuoted(out, 0, s, plain, []);
    assert [] + Quoted(s) == Quoted(s);
  }

  /** The length of a text, measured. */
  method Length(a: array<byte>, ghost s: CString) returns (n: nat)
    requires Text(a, s)
    ensures n == |s| < a.Length && a[..n] == s
  {
    assert [] + s == s;
    n := StrLen(a, 0, [], s);
    var text: seq<byte> := s;
    assert a[..n] == (text + [0])[..n];
  }

  /** `print_value` without a buffer. */
  method PrintValue(t: Json, depth: nat, fmt: bool) returns (out: array<byte>)
    requires Printable(t)
    ensures fresh(out) && Text(out, Print(t, depth, fmt))
    decreases t, 1
  {
    match t
    case Null => out := New(NULL_TEXT, 5);
    case False => out := New(FALSE_TEXT, 6);
    case True => out := New(TRUE_TEXT, 5);
    case Number(d) =>
      if d == 0.0 {
        out := New([ZERO], 2);
      } else {
        DecimalFits(d.Floor);
        out := New(Decimal(d.Floor), NUMBER_SIZE);
      }
    case String(s) => out := PrintString(s);
    case Array(xs) => out := PrintArray(t, depth, fmt);
    case Object(ms) => out := PrintObject(t, depth, fmt);
  }

  ghost predicate ValuesPrinted(entries: seq<array<byte>>, xs: seq<Json>, depth: nat, fmt: bool)
    requires |entries| <= |xs|
    reads entries
  {
    forall k | 0 <= k < |entries| :: Printable(xs[k]) && Text(entries[k], Print(xs[k], depth, fmt))
  }

  ghost predicate NamesPrinted(names: seq<array<byte>>, ms: seq<Member>)
    requires |names| <= |ms|
    reads names
  {
    forall k | 0 <= k < |names| :: Text(names[k], Quoted(ms[k].name))
  }

  method PrintArray(t: Json, depth: nat, fmt: bool) returns (out: array<byte>)
    requires t.Array? && Printable(t)
    ensures fresh(out) && Text(out, Print(t, depth, fmt))
    decreases t, 0
  {
    hide Print, PrintItems, ItemsRoom, Text;
    var xs := t.items;
    ArrayText(t, depth, fmt);
    if xs == [] {
      out := New([LBRACKET, RBRACKET], 3);
      return;
    }
    var entries: seq<array<byte>> := [];
    var len, i := 5, 0;
    assert xs[0..] == xs;
    while i < |xs|
      invariant |entries| == i <= |xs| && PrintableItems(xs[i..])
      invariant len + ItemsRoom(xs[i..], depth + 1, fmt) == 5 + ItemsRoom(xs, depth + 1, fmt)
      invariant ValuesPrinted(entries, xs, depth + 1, fmt)
    {
      ItemsRoomStep(xs, i, depth + 1, fmt);
      var ret := PrintValue(xs[i], depth + 1, fmt);
      var n := Length(ret, Print(xs[i], depth + 1, fmt));
      entries := entries + [ret];
      len := len + n + 2 + if fmt then 1 else 0;
      i := i + 1;
    }
    ItemsRoomStep(xs, i, depth + 1, fmt);
    ItemsFit(xs, depth + 1, fmt);
    out := ComposeArray(t, entries, len, depth, fmt);
  }

  /** Puts the printed items together. */
  method ComposeArray(t: Json, entries: seq<array<byte>>, len: nat, depth: nat, fmt: bool) returns (out: array<byte>)
    requires t.Array? && Printable(t) && |entries| == |t.items| && ValuesPrinted(entries, t.items, depth + 1, fmt)
    requires |Print(t, depth, fmt)| < len
    ensures fresh(out) && Text(out, Print(t, depth, fmt))
  {
    hide Print, PrintItems, ItemText;
    var xs := t.items;
    ArrayText(t, depth, fmt);
    out := new byte[len];
    Put(out, 0, LBRACKET, []);
    ghost var done: CString := [LBRACKET];
    var at, i := 1, 0;
    assert [] + [LBRACKET] == done && xs[0..] == xs;
    while i < |entries|
      invariant i <= |entries| && PrintableItems(xs[i..]) && ValuesPrinted(entries, xs, depth + 1, fmt)
      invariant Holds(out, done) && at == |done|
      invariant done + PrintItems(xs[i..], depth + 1, fmt) + [RBRACKET] == Print(t, depth, fmt)
    {
      ItemsStep(xs, i, depth + 1, fmt, done);
      ItemParts(xs[i], i + 1 < |xs|, depth + 1, fmt);
      at := PutItem(out, at, entries[i], xs[i], i + 1 < |xs|, depth + 1, fmt, done);
      done := done + ItemText(xs[i], i + 1 < |xs|, depth + 1, fmt);
      i := i + 1;
    }
    NoItems(depth + 1, fmt, done);
    Put(out, at, RBRACKET, done);
    Put(out, at + 1, 0, done + [RBRACKET]);
  }

  method PutItem(out: array<byte>, at: nat, entry: array<byte>, ghost x: Json, more: bool, ghost depth: nat, fmt: bool,
                 ghost done: CString)
    returns (end: nat)
    requires Printable(x) && Text(entry, Print(x, depth, fmt)) && out != entry && Holds(out, done) && at == |done|
    requires |done| + |ItemText(x, more, depth, fmt)| <= out.Length
    modifies out
    ensures Holds(out, done + ItemText(x, more, depth, fmt)) && end == at + |ItemText(x, more, depth, fmt)|
  {
    hide Print;
    var n := Length(entry, Print(x, depth, fmt));
    PutAll(out, at, entry[..n], done);
    PutAll(out, at + n, ItemSeparator(more, fmt), done + Print(x, depth, fmt));
    Associative(done, Print(x, depth, fmt), ItemSeparator(more, fmt));
    end := at + n + |ItemSeparator(more, fmt)|;
  }

  method PrintObject(t: Json, depth: nat, fmt: bool) returns (out: array<byte>)
    requires t.Object? && Printable(t)
    ensures fresh(out) && Text(out, Print(t, depth, fmt))
    decreases t, 0
  {
    hide Print, PrintFields, Opening, Closing, FieldsRoom, Quoted, Text, Printable, PrintableFields;
    FieldsPrintable(t);
    var ms := t.members;
    ObjectText(t, depth, fmt);
    if ms == [] {
      out := New(Opening(fmt) + Closing(depth, fmt), if fmt then depth + 4 else 3);
      return;
    }
    var names: seq<array<byte>>, entries: seq<array<byte>> := [], [];
    var len, i := if fmt then 7 + (depth + 1) else 7, 0;
    ghost var initial := len;
    assert ms[0..] == ms;
    while i < |ms|
      invariant |entries| == |names| == i <= |ms| && PrintableFields(ms[i..])
      invariant len + FieldsRoom(ms[i..], depth + 1, fmt) == initial + FieldsRoom(ms, depth + 1, fmt)
      invariant ValuesPrinted(entries, Values(ms), depth + 1, fmt) && NamesPrinted(names, ms)
    {
      FieldsRoomStep(ms, i, depth + 1, fmt);
      var str, ret, size := PrintMember(t, i, depth + 1, fmt);
      names, entries := names + [str], entries + [ret];
      len := len + size;
      i := i + 1;
    }
    FieldsRoomStep(ms, i, depth + 1, fmt);
    FieldsFit(ms, depth + 1, fmt);
    out := ComposeObject(t, names, entries, len, depth, fmt);
  }

  method PrintMember(t: Json, i: nat, depth: nat, fmt: bool) returns (str: array<byte>, ret: array<byte>, size: nat)
    requires t.Object? && i < |t.members| && Printable(t.members[i].value)
    ensures Text(str, Quoted(t.members[i].name)) && Text(ret, Print(t.members[i].value, depth, fmt))
    ensures size == FieldRoom(t.members[i], depth, fmt)
    decreases t, 0, 0
  {
    hide Print, Quoted;
    str := PrintString(t.members[i].name);
    ret := PrintValue(t.members[i].value, depth, fmt);
    var n := Length(str, Quoted(t.members[i].name));
    var k := Length(ret, Print(t.members[i].value, depth, fmt));
    size := k + n + 2 + if fmt then 2 + depth else 0;
  }

  lemma FieldsPrintable(t: Json)
    requires t.Object? && Printable(t)
    ensures PrintableFields(t.members)
  {}

  lemma FieldsRoomStep(ms: seq<Member>, i: nat, depth: nat, fmt: bool)
    requires i <= |ms| && PrintableFields(ms[i..])
    ensures i == |ms| ==> FieldsRoom(ms[i..], depth, fmt) == 0
    ensures i < |ms| ==> Printable(ms[i].value) && PrintableFields(ms[i + 1..])
    ensures i < |ms| ==>
              FieldsRoom(ms[i..], depth, fmt) == FieldRoom(ms[i], depth, fmt) + FieldsRoom(ms[i + 1..], depth, fmt)
  {
    if i < |ms| {
      assert ms[i..][1..] == ms[i + 1..];
    }
  }

  lemma ItemsRoomStep(xs: seq<Json>, i: nat, depth: nat, fmt: bool)
    requires i <= |xs| && PrintableItems(xs[i..])
    ensures i == |xs| ==> ItemsRoom(xs[i..], depth, fmt) == 0
    ensures i < |xs| ==> Printable(xs[i]) && PrintableItems(xs[i + 1..])
    ensures i < |xs| ==>
              ItemsRoom(xs[i..], depth, fmt) ==
              |Print(xs[i], depth, fmt)| + 2 + (if fmt then 1 else 0) + ItemsRoom(xs[i + 1..], depth, fmt)
  {
    if i < |xs| {
      assert xs[i..][1..] == xs[i + 1..];
    }
  }

  ghost function Values(ms: seq<Member>): (r: seq<Json>)
    ensures |r| == |ms| && forall k | 0 <= k < |ms| :: r[k] == ms[k].value
  {
    seq(|ms|, k requires 0 <= k < |ms| => ms[k].value)
  }

  lemma PartsAt(names: seq<array<byte>>, entries: seq<array<byte>>, ms: seq<Member>, i: nat, depth: nat, fmt: bool)
    requires i < |names| == |entries| == |ms|
    requires NamesPrinted(names, ms) && ValuesPrinted(entries, Values(ms), depth, fmt)
    ensures Printable(ms[i].value) && Text(names[i], Quoted(ms[i].name))
    ensures Text(entries[i], Print(ms[i].value, depth, fmt))
  {}

  /** Puts the printed names and values together. */
  method ComposeObject(t: Json, names: seq<array<byte>>, entries: seq<array<byte>>, len: nat, depth: nat, fmt: bool)
    returns (out: array<byte>)
    requires t.Object? && Printable(t) && |names| == |entries| == |t.members|
    requires ValuesPrinted(entries, Values(t.members), depth + 1, fmt) && NamesPrinted(names, t.members)
    requires |Print(t, depth, fmt)| < len
    ensures fresh(out) && Text(out, Print(t, depth, fmt))
  {
    hide Print, PrintFields, PrintField, Opening, Closing, Quoted, Printable, Holds, ValuesPrinted, NamesPrinted,
         Values;
    ghost var ms := t.members;
    FieldsPrintable(t);
    ObjectText(t, depth, fmt);
    out := new byte[len];
    PutAll(out, 0, Opening(fmt), []);
    ghost var done: CString := Opening(fmt);
    var at, i := |Opening(fmt)|, 0;
    assert [] + Opening(fmt) == done && ms[0..] == ms;
    while i < |entries|
      invariant i <= |entries| && PrintableFields(ms[i..])
      invariant ValuesPrinted(entries, Values(ms), depth + 1, fmt) && NamesPrinted(names, ms)
      invariant Holds(out, done) && at == |done|
      invariant done + PrintFields(ms[i..], depth + 1, fmt) + Closing(depth, fmt) == Print(t, depth, fmt)
    {
      FieldsStep(ms, i, depth + 1, fmt, done);
      PartsAt(names, entries, ms, i, depth + 1, fmt);
      at := PutMember(out, at, names[i], entries[i], ms[i], i + 1 < |entries|, depth + 1, fmt, done);
      done := done + PrintField(ms[i], i + 1 < |ms|, depth + 1, fmt);
      i := i + 1;
    }
    NoFields(depth + 1, fmt, done);
    PutAll(out, at, Closing(depth, fmt), done);
    Put(out, at + |Closing(depth, fmt)|, 0, done + Closing(depth, fmt));
  }

  method PutMember(out: array<byte>, at: nat, name: array<byte>, entry: array<byte>, ghost m: Member, more: bool,
                   depth: nat, fmt: bool, ghost done: CString)
    returns (end: nat)
    requires Printable(m.value) && Text(name, Quoted(m.name)) && Text(entry, Print(m.value, depth, fmt))
    requires out != entry && out != name && Holds(out, done) && at == |done|
    requires |done| + |PrintField(m, more, depth, fmt)| <= out.Length
    modifies out
    ensures Holds(out, done + PrintField(m, more, depth, fmt)) && end == at + |PrintField(m, more, depth, fmt)|
  {
    hide Print, Quoted, PrintField, FieldSeparator, Printable;
    FieldSize(m, more, depth, fmt);
    FieldText(m, more, depth, fmt, done);
    var tabs, colon := If(fmt, Tabs(depth)), [COLON] + If(fmt, [TAB]);
    PutAll(out, at, tabs, done);
    end := at + |tabs|;
    var n := Length(name, Quoted(m.name));
    PutAll(out, end, name[..n], done + tabs);
    end := end + n;
    PutAll(out, end, colon, done + tabs + Quoted(m.name));
    end := end + |colon|;
    var k := Length(entry, Print(m.value, depth, fmt));
    PutAll(out, end, entry[..k], done + tabs + Quoted(m.name) + colon);
    end := end + k;
    PutAll(out, end, FieldSeparator(more, fmt), done + tabs + Quoted(m.name) + colon + Print(m.value, depth, fmt));
    end := end + |FieldSeparator(more, fmt)|;
  }

  lemma ItemParts(x: Json, more: bool, depth: nat, fmt: bool)
    requires Printable(x)
    ensures ItemText(x, more, depth, fmt) == Print(x, depth, fmt) + ItemSeparator(more, fmt)
  {}
}
