/**
 * Finding a JSON object in a model's reply: firstObject in plugins/bidrl/analyze.go.
 *
 * A text has one character per byte. The grammar of sections 4 to 7 of RFC 8259 is a datatype with a
 * printer, white space included, so "any JSON object" is quantified over its syntax trees.
 */
module JsonScan {
  import opened Common

  // ---- The grammar ---------------------------------------------------------------------------

  datatype Elem = Plain(c: char) | Escape(c: char) | Unicode(hex: string)

  /** `frac` is empty when a number has no fraction. */
  datatype Exponent = NoExponent | Exponent(marker: char, sign: string, digits: string)

  datatype Json =
    | True
    | False
    | Null
    | Num(minus: bool, whole: string, frac: string, exp: Exponent)
    | Str(elems: seq<Elem>)
    | Arr(pad: string, items: Items)
    | Obj(pad: string, members: Members)

  /** `before` is the white space after the comma, so it is printed only when more follows. */
  datatype Items = NoItems | AnItem(value: Json, after: string, before: string, rest: Items)

  datatype Members =
    | NoMembers
    | AMember(key: seq<Elem>, preColon: string, postColon: string, value: Json, after: string, before: string, rest: Members)

  predicate IsSpace(c: char) { c in " \t\n\r" }

  predicate Spaces(s: string) { forall c <- s :: IsSpace(c) }

  predicate IsHex(c: char) { '0' <= c <= '9' || 'a' <= c <= 'f' || 'A' <= c <= 'F' }

  predicate Digits(s: string) { s != "" && forall c <- s :: '0' <= c <= '9' }

  /** Section 6: no leading zero, and at least one digit after a point or an exponent marker. */
  predicate NumberOk(whole: string, frac: string, exp: Exponent) {
    && Digits(whole) && (whole[0] == '0' ==> |whole| == 1)
    && (frac != "" ==> Digits(frac))
    && (exp.Exponent? ==> exp.marker in "eE" && exp.sign in {"", "+", "-"} && Digits(exp.digits))
  }

  predicate ElemOk(e: Elem) {
    match e
    case Plain(c) => ' ' <= c <= '\U{ff}' && c != '"' && c != '\\'
    case Escape(c) => c in "\"\\/bfnrt"
    case Unicode(h) => |h| == 4 && forall c <- h :: IsHex(c)
  }

  predicate WellFormed(j: Json) {
    match j
    case True => true
    case False => true
    case Null => true
    case Num(_, whole, frac, exp) => NumberOk(whole, frac, exp)
    case Str(es) => forall e <- es :: ElemOk(e)
    case Arr(pad, items) => Spaces(pad) && ItemsOk(items)
    case Obj(pad, members) => Spaces(pad) && MembersOk(members)
  }

  predicate ItemsOk(l: Items) {
    l.AnItem? ==> WellFormed(l.value) && Spaces(l.after) && Spaces(l.before) && ItemsOk(l.rest)
  }

  predicate MembersOk(l: Members) {
    l.AMember? ==>
      && (forall e <- l.key :: ElemOk(e)) && Spaces(l.preColon) && Spaces(l.postColon) && WellFormed(l.value)
      && Spaces(l.after) && Spaces(l.before) && MembersOk(l.rest)
  }

  function PrintElem(e: Elem): string {
    match e
    case Plain(c) => [c]
    case Escape(c) => ['\\', c]
    case Unicode(h) => "\\u" + h
  }

  function PrintElems(es: seq<Elem>): string {
    if es == [] then "" else PrintElem(es[0]) + PrintElems(es[1..])
  }

  function PrintString(es: seq<Elem>): string { "\"" + PrintElems(es) + "\"" }

  function PrintNumber(minus: bool, whole: string, frac: string, exp: Exponent): string {
    (if minus then "-" else "") + whole + (if frac == "" then "" else "." + frac)
      + match exp case NoExponent => "" case Exponent(m, sign, digits) => [m] + sign + digits
  }

  function Print(j: Json): string {
    match j
    case True => "true"
    case False => "false"
    case Null => "null"
    case Num(minus, whole, frac, exp) => PrintNumber(minus, whole, frac, exp)
    case Str(es) => PrintString(es)
    case Arr(pad, items) => "[" + (pad + (PrintItems(items) + "]"))
    case Obj(pad, members) => "{" + (pad + (PrintMembers(members) + "}"))
  }

  function PrintItems(l: Items): string {
    if l.NoItems? then ""
    else Print(l.value) + (l.after + (if l.rest.NoItems? then "" else "," + (l.before + PrintItems(l.rest))))
  }

  function PrintMembers(l: Members): string {
    if l.NoMembers? then ""
    else
      var more := if l.rest.NoMembers? then "" else "," + (l.before + PrintMembers(l.rest));
      PrintString(l.key) + (l.preColon + (":" + (l.postColon + (Print(l.value) + (l.after + more)))))
  }

  // ---- The scanner ------------------------------------------------------------------------------

  datatype Scanner = Scanner(depth: int, inStr: bool, esc: bool)

  function Next(s: Scanner, c: char): Scanner {
    if s.inStr then
      if s.esc then s.(esc := false)
      else if c == '\\' then s.(esc := true)
      else if c == '"' then s.(inStr := false)
      else s
    else if c == '"' then s.(inStr := true)
    else if c == '{' then s.(depth := s.depth + 1)
    else if c == '}' then s.(depth := s.depth - 1)
    else s
  }

  predicate Closes(s: Scanner, c: char) { !s.inStr && c == '}' && s.depth == 1 }

  /** How many characters are read up to and including the brace that brings the depth to zero. */
  function Scan(b: string, s: Scanner): Option<nat> {
    if b == [] then None
    else if Closes(s, b[0]) then Some(1)
    else Shift(Scan(b[1..], Next(s, b[0])), 1)
  }

  function Shift(r: Option<nat>, n: nat): Option<nat> {
    if r.Some? then Some(r.value + n) else None
  }

  function IndexByte(b: string, c: char): (i: nat)
    ensures i <= |b| && c !in b[..i] && (i < |b| ==> b[i] == c)
  {
    if b == [] || b[0] == c then 0
    else
      var k := IndexByte(b[1..], c);
      assert b[..k + 1] == [b[0]] + b[1..][..k];
      k + 1
  }

  const OUTSIDE := Scanner(0, false, false)

  function FirstObject(b: string): Option<string> {
    var start := IndexByte(b, '{');
    var n := Scan(b[start..], OUTSIDE);
    if n.None? then None else ScanInBounds(b[start..], OUTSIDE); Some(b[start..start + n.value])
  }

  lemma {:induction false} ScanInBounds(b: string, s: Scanner)
    ensures Scan(b, s).Some? ==> 1 <= Scan(b, s).value <= |b|
    decreases |b|
  {
    if b != [] { ScanInBounds(b[1..], Next(s, b[0])); }
  }

  /** firstObject as it is written: one pass with three variables. */
  method FindFirstObject(b: string) returns (r: Option<string>)
    ensures r == FirstObject(b)
  {
    var start := IndexByte(b, '{');
    if start == |b| { return None; }
    var depth, inStr, esc := 0, false, false;
    for i := start to |b|
      invariant Shift(Scan(b[i..], Scanner(depth, inStr, esc)), i - start) == Scan(b[start..], OUTSIDE)
    {
      assert b[i..][1..] == b[i + 1..];
      var c := b[i];
      if inStr {
        if esc {
          esc := false;
          continue;
        }
        if c == '\\' {
          esc := true;
        } else if c == '"' {
          inStr := false;
        }
        continue;
      }
      if c == '"' {
        inStr := true;
      } else if c == '{' {
        depth := depth + 1;
      } else if c == '}' {
        depth := depth - 1;
        if depth == 0 { return Some(b[start..i + 1]); }
      }
    }
    return None;
  }

  // ---- Printed values leave the scanner where it was ----------------------------------------------

  /** Reading `text` from state `s`, whatever follows it, ends in state `t` without closing. */
  ghost predicate Passes(text: string, s: Scanner, t: Scanner) {
    forall tail: string {:trigger Followed(text, tail)} ::
      Followed(text, tail) ==> Scan(text + tail, s) == Shift(Scan(tail, t), |text|)
  }

  /** Always true; names the one tail at which a `Passes` fact is wanted. */
  predicate Followed(text: string, tail: string) { |text + tail| >= |tail| }

  lemma PassEmpty(s: Scanner)
    ensures Passes("", s, s)
  {
    forall tail: string ensures Scan("" + tail, s) == Shift(Scan(tail, s), |""|) { assert "" + tail == tail; }
  }

  lemma PassChar(c: char, s: Scanner)
    requires !Closes(s, c)
    ensures Passes([c], s, Next(s, c))
  {
    forall tail: string ensures Scan([c] + tail, s) == Shift(Scan(tail, Next(s, c)), 1) {
      assert ([c] + tail)[1..] == tail;
    }
  }

  lemma PassThen(a: string, b: string, s: Scanner, t: Scanner, u: Scanner)
    requires Passes(a, s, t) && Passes(b, t, u)
    ensures Passes(a + b, s, u)
  {
    forall tail: string ensures Scan((a + b) + tail, s) == Shift(Scan(tail, u), |a + b|) {
      assert (a + b) + tail == a + (b + tail);
      assert Followed(a, b + tail) && Followed(b, tail);
    }
  }

  /** Outside strings, a text without quotes and braces changes nothing. */
  lemma {:induction false} PassInert(text: string, s: Scanner)
    requires !s.inStr && forall c <- text :: c != '"' && c != '{' && c != '}'
    ensures Passes(text, s, s)
    decreases |text|
  {
    if text == "" { PassEmpty(s); return; }
    assert text[0] in text && forall c <- text[1..] :: c in text;
    PassChar(text[0], s);
    PassInert(text[1..], s);
    PassThen([text[0]], text[1..], s, s, s);
    assert [text[0]] + text[1..] == text;
  }

  lemma {:induction false} PassElems(es: seq<Elem>, s: Scanner)
    requires s.inStr && !s.esc && forall e <- es :: ElemOk(e)
    ensures Passes(PrintElems(es), s, s)
    decreases |es|
  {
    if es == [] { PassEmpty(s); return; }
    PassElem(es[0], s);
    PassElems(es[1..], s);
    PassThen(PrintElem(es[0]), PrintElems(es[1..]), s, s, s);
  }

  lemma PassElem(e: Elem, s: Scanner)
    requires s.inStr && !s.esc && ElemOk(e)
    ensures Passes(PrintElem(e), s, s)
  {
    match e
    case Plain(c) => PassChar(c, s);
    case Escape(c) =>
      PassChar('\\', s);
      PassChar(c, s.(esc := true));
      PassThen(['\\'], [c], s, s.(esc := true), s);
      assert ['\\'] + [c] == ['\\', c];
    case Unicode(h) =>
      PassChar('\\', s);
      PassChar('u', s.(esc := true));
      PassThen(['\\'], ['u'], s, s.(esc := true), s);
      PassHex(h, s);
      PassThen("\\u", h, s, s, s);
      assert ['\\'] + ['u'] == "\\u";
  }

  lemma {:induction false} PassHex(h: string, s: Scanner)
    requires s.inStr && !s.esc && forall c <- h :: IsHex(c)
    ensures Passes(h, s, s)
    decreases |h|
  {
    if h == "" { PassEmpty(s); return; }
    assert h[0] in h && forall c <- h[1..] :: c in h;
    PassChar(h[0], s);
    PassHex(h[1..], s);
    PassThen([h[0]], h[1..], s, s, s);
    assert [h[0]] + h[1..] == h;
  }

  lemma PassString(es: seq<Elem>, s: Scanner)
    requires !s.inStr && !s.esc && forall e <- es :: ElemOk(e)
    ensures Passes(PrintString(es), s, s)
  {
    var q := s.(inStr := true);
    PassChar('"', s);
    PassElems(es, q);
    PassChar('"', q);
    PassThen("\"", PrintElems(es), s, q, q);
    PassThen("\"" + PrintElems(es), "\"", s, q, s);
  }

  lemma NumberIsInert(minus: bool, whole: string, frac: string, exp: Exponent)
    requires NumberOk(whole, frac, exp)
    ensures forall c <- PrintNumber(minus, whole, frac, exp) :: c != '"' && c != '{' && c != '}'
  {
    var sign := if minus then "-" else "";
    var point := if frac == "" then "" else "." + frac;
    var power := match exp case NoExponent => "" case Exponent(m, sign, digits) => [m] + sign + digits;
    assert forall c <- whole :: '0' <= c <= '9';
    assert forall c <- point :: c == '.' || '0' <= c <= '9';
    assert forall c <- power :: c in "eE+-" || '0' <= c <= '9';
    assert forall c <- sign + whole + point + power :: c in sign || c in whole || c in point || c in power;
  }

  lemma {:induction false} PassValue(j: Json, s: Scanner)
    requires WellFormed(j) && !s.inStr && !s.esc && s.depth >= 1
    ensures Passes(Print(j), s, s)
    decreases j
  {
    match j
    case True => PassInert("true", s);
    case False => PassInert("false", s);
    case Null => PassInert("null", s);
    case Num(minus, whole, frac, exp) =>
      NumberIsInert(minus, whole, frac, exp);
      PassInert(Print(j), s);
    case Str(es) => PassString(es, s);
    case Arr(pad, items) =>
      PassItems(items, s);
      PassChar(']', s);
      PassThen(PrintItems(items), "]", s, s, s);
      PassInert(pad, s);
      PassThen(pad, PrintItems(items) + "]", s, s, s);
      PassChar('[', s);
      PassThen("[", pad + (PrintItems(items) + "]"), s, s, s);
    case Obj(pad, members) =>
      var inner := s.(depth := s.depth + 1);
      PassMembers(members, inner);
      PassChar('}', inner);
      PassThen(PrintMembers(members), "}", inner, inner, s);
      PassInert(pad, inner);
      PassThen(pad, PrintMembers(members) + "}", inner, inner, s);
      PassChar('{', s);
      PassThen("{", pad + (PrintMembers(members) + "}"), s, inner, s);
  }

  lemma {:induction false} PassItems(l: Items, s: Scanner)
    requires ItemsOk(l) && !s.inStr && !s.esc && s.depth >= 1
    ensures Passes(PrintItems(l), s, s)
    decreases l
  {
    if l.NoItems? { PassEmpty(s); return; }
    var more := if l.rest.NoItems? then "" else "," + (l.before + PrintItems(l.rest));
    if l.rest.NoItems? {
      PassEmpty(s);
    } else {
      PassItems(l.rest, s);
      PassInert(l.before, s);
      PassThen(l.before, PrintItems(l.rest), s, s, s);
      PassInert(",", s);
      PassThen(",", l.before + PrintItems(l.rest), s, s, s);
    }
    PassInert(l.after, s);
    PassThen(l.after, more, s, s, s);
    PassValue(l.value, s);
    PassThen(Print(l.value), l.after + more, s, s, s);
  }

  lemma {:induction false} PassMembers(l: Members, s: Scanner)
    requires MembersOk(l) && !s.inStr && !s.esc && s.depth >= 1
    ensures Passes(PrintMembers(l), s, s)
    decreases l
  {
    if l.NoMembers? { PassEmpty(s); return; }
    var more := if l.rest.NoMembers? then "" else "," + (l.before + PrintMembers(l.rest));
    if l.rest.NoMembers? {
      PassEmpty(s);
    } else {
      PassMembers(l.rest, s);
      PassInert(l.before, s);
      PassThen(l.before, PrintMembers(l.rest), s, s, s);
      PassInert(",", s);
      PassThen(",", l.before + PrintMembers(l.rest), s, s, s);
    }
    PassInert(l.after, s);
    PassThen(l.after, more, s, s, s);
    PassValue(l.value, s);
    PassThen(Print(l.value), l.after + more, s, s, s);
    PassInert(l.postColon, s);
    PassThen(l.postColon, Print(l.value) + (l.after + more), s, s, s);
    PassInert(":", s);
    PassThen(":", l.postColon + (Print(l.value) + (l.after + more)), s, s, s);
    PassInert(l.preColon, s);
    PassThen(l.preColon, ":" + (l.postColon + (Print(l.value) + (l.after + more))), s, s, s);
    PassString(l.key, s);
    PassThen(PrintString(l.key), l.preColon + (":" + (l.postColon + (Print(l.value) + (l.after + more)))), s, s, s);
  }

  // ---- The theorem -----------------------------------------------------------------------------------

  lemma ScanObject(o: Json, suffix: string)
    requires o.Obj? && WellFormed(o)
    ensures Scan(Print(o) + suffix, OUTSIDE) == Some(|Print(o)|)
  {
    var inner := OUTSIDE.(depth := 1);
    var body := o.pad + PrintMembers(o.members);
    PassChar('{', OUTSIDE);
    PassInert(o.pad, inner);
    PassMembers(o.members, inner);
    PassThen(o.pad, PrintMembers(o.members), inner, inner, inner);
    PassThen("{", body, OUTSIDE, inner, inner);
    var open := "{" + body;
    assert Print(o) + suffix == open + ("}" + suffix) && |Print(o)| == |open| + 1;
    assert Followed(open, "}" + suffix);
  }

  /**
   * Whatever text without a brace precedes it and whatever follows it, the object is found exactly: braces
   * and quotes inside its strings, escapes and nesting never end it early or late.
   */
  lemma FindsTheObject(prefix: string, o: Json, suffix: string)
    requires '{' !in prefix && o.Obj? && WellFormed(o)
    ensures FirstObject(prefix + Print(o) + suffix) == Some(Print(o))
  {
    var b := prefix + Print(o) + suffix;
    StartsAt(prefix, Print(o) + suffix);
    assert b == prefix + (Print(o) + suffix);
    assert b[|prefix|..] == Print(o) + suffix;
    ScanObject(o, suffix);
    assert (Print(o) + suffix)[..|Print(o)|] == Print(o);
  }

  lemma StartsAt(prefix: string, rest: string)
    requires '{' !in prefix && rest != "" && rest[0] == '{'
    ensures IndexByte(prefix + rest, '{') == |prefix|
  {
    var b := prefix + rest;
    var i := IndexByte(b, '{');
    assert b[|prefix|] == '{' && forall k :: 0 <= k < |prefix| ==> b[k] in prefix;
    assert forall k :: 0 <= k < i ==> b[k] in b[..i];
  }

  lemma {:induction false} ScanExtends(b: string, more: string, s: Scanner)
    requires Scan(b, s).Some?
    ensures Scan(b + more, s) == Scan(b, s)
    decreases |b|
  {
    assert (b + more)[0] == b[0] && (b + more)[1..] == b[1..] + more;
    if !Closes(s, b[0]) { ScanExtends(b[1..], more, Next(s, b[0])); }
  }

  /** And a reply cut off anywhere inside its object yields nothing, rather than a shorter object. */
  lemma TruncatedObjectRejected(prefix: string, o: Json, k: nat)
    requires '{' !in prefix && o.Obj? && WellFormed(o) && k < |Print(o)|
    ensures FirstObject(prefix + Print(o)[..k]) == None
  {
    if k == 0 {
      NoBrace(prefix);
      assert prefix + Print(o)[..k] == prefix;
    } else {
      var cut := Print(o)[..k];
      StartsAt(prefix, cut);
      assert (prefix + cut)[|prefix|..] == cut;
      CutScansToNothing(o, k);
    }
  }

  lemma NoBrace(b: string)
    requires '{' !in b
    ensures FirstObject(b) == None
  {
    assert forall i :: 0 <= i < |b| ==> b[i] in b;
    assert b[|b|..] == [];
  }

  lemma CutScansToNothing(o: Json, k: nat)
    requires o.Obj? && WellFormed(o) && 0 < k < |Print(o)|
    ensures Scan(Print(o)[..k], OUTSIDE).None?
  {
    var cut, more := Print(o)[..k], Print(o)[k..];
    ScanObject(o, []);
    assert cut + more == Print(o) + [];
    if Scan(cut, OUTSIDE).Some? {
      ScanInBounds(cut, OUTSIDE);
      ScanExtends(cut, more, OUTSIDE);
    }
  }
}
