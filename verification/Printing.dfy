/** The text of a tree, formatted and unformatted. */
module Printing {
  import opened Bytes
  import opened Numerals
  import opened Strings
  import opened Trees

  const NULL_TEXT: CString := [110, 117, 108, 108]
  const TRUE_TEXT: CString := [116, 114, 117, 101]
  const FALSE_TEXT: CString := [102, 97, 108, 115, 101]

  /** The numbers of the `%d` branch of `print_number`. */
  predicate Int32(d: real) {
    d == d.Floor as real && -0x8000_0000 <= d.Floor < 0x8000_0000
  }

  /** All numbers are 32-bit integers. */
  predicate Printable(t: Json) {
    match t
    case Number(d) => Int32(d)
    case Array(xs) => PrintableItems(xs)
    case Object(ms) => PrintableFields(ms)
    case _ => true
  }

  predicate PrintableItems(xs: seq<Json>) {
    xs == [] || (Printable(xs[0]) && PrintableItems(xs[1..]))
  }

  predicate PrintableFields(ms: seq<Member>) {
    ms == [] || (Printable(ms[0].value) && PrintableFields(ms[1..]))
  }

  function Tabs(n: nat): CString {
    seq(n, _ => TAB)
  }

  /** White space that only formatted text has. */
  function If(fmt: bool, s: CString): CString {
    if fmt then s else []
  }

  function Print(t: Json, depth: nat, fmt: bool): CString
    requires Printable(t)
  {
    match t
    case Null => NULL_TEXT
    case False => FALSE_TEXT
    case True => TRUE_TEXT
    case Number(d) => Decimal(d.Floor)
    case String(s) => Quoted(s)
    case Array(xs) => [LBRACKET] + PrintItems(xs, depth + 1, fmt) + [RBRACKET]
    case Object(ms) =>
      [LBRACE] + If(fmt, [NEWLINE]) + PrintFields(ms, depth + 1, fmt) + If(fmt, Tabs(depth)) + [RBRACE]
  }

  function PrintItems(xs: seq<Json>, depth: nat, fmt: bool): CString
    requires PrintableItems(xs)
  {
    if xs == [] then []
    else Print(xs[0], depth, fmt) + ItemSeparator(|xs| > 1, fmt) + PrintItems(xs[1..], depth, fmt)
  }

  function ItemSeparator(more: bool, fmt: bool): CString {
    if more then [COMMA] + If(fmt, [SPACE]) else []
  }

  function PrintFields(ms: seq<Member>, depth: nat, fmt: bool): CString
    requires PrintableFields(ms)
  {
    if ms == [] then []
    else PrintField(ms[0], |ms| > 1, depth, fmt) + PrintFields(ms[1..], depth, fmt)
  }

  function PrintField(m: Member, more: bool, depth: nat, fmt: bool): CString
    requires Printable(m.value)
  {
    If(fmt, Tabs(depth)) + Quoted(m.name) + [COLON] + If(fmt, [TAB]) + Print(m.value, depth, fmt) +
    FieldSeparator(more, fmt)
  }

  function FieldSeparator(more: bool, fmt: bool): CString {
    (if more then [COMMA] else []) + If(fmt, [NEWLINE])
  }
}
