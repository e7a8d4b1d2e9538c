/**
 * The live feed's handshake against the host's limits: subscribeFrames in plugins/bidrl/live.go and
 * validateSubscribeOptions in internal/core/browser/subscribe.go.
 */
module Handshake {
  import opened Common
  import J = JsonScan
  import F = LiveFeed

  const MAX_FRAMES := 512
  const MAX_FRAME_BYTES := 4096
  const MAX_TOTAL_BYTES := 262_144

  datatype Refusal = TooManyFrames | FrameSize | NotJson | TotalSize

  function TotalBytes(frames: seq<string>): nat {
    if frames == [] then 0 else TotalBytes(frames[..|frames| - 1]) + |frames[|frames| - 1]|
  }

  /** The documented limits, independent of the order in which they are checked. */
  predicate Accepted(frames: seq<string>, isJson: string -> bool) {
    && |frames| <= MAX_FRAMES
    && (forall f <- frames :: 1 <= |f| <= MAX_FRAME_BYTES && isJson(f))
    && TotalBytes(frames) <= MAX_TOTAL_BYTES
  }

  predicate Sized(f: string) { 1 <= |f| <= MAX_FRAME_BYTES }

  /** The first frame that is refused on its own account. */
  predicate FirstBad(frames: seq<string>, isJson: string -> bool, k: int) {
    && 0 <= k < |frames| && !(Sized(frames[k]) && isJson(frames[k]))
    && forall j :: 0 <= j < k ==> Sized(frames[j]) && isJson(frames[j])
  }

  /** The handshake half of validateSubscribeOptions; `isJson` stands for json.Valid. */
  method Validate(frames: seq<string>, isJson: string -> bool) returns (r: Option<Refusal>)
    ensures r.None? <==> Accepted(frames, isJson)
    ensures r == Some(TooManyFrames) <==> |frames| > MAX_FRAMES
    ensures r == Some(FrameSize) <==> |frames| <= MAX_FRAMES && exists k :: FirstBad(frames, isJson, k) && !Sized(frames[k])
    ensures r == Some(NotJson) <==> |frames| <= MAX_FRAMES && exists k :: FirstBad(frames, isJson, k) && Sized(frames[k])
  {
    if |frames| > MAX_FRAMES { return Some(TooManyFrames); }
    var total := 0;
    for i := 0 to |frames|
      invariant total == TotalBytes(frames[..i])
      invariant forall f <- frames[..i] :: 1 <= |f| <= MAX_FRAME_BYTES && isJson(f)
      invariant forall j :: 0 <= j < i ==> Sized(frames[j]) && isJson(frames[j])
    {
      var frame := frames[i];
      assert frame in frames;
      assert !(Sized(frame) && isJson(frame)) ==> FirstBad(frames, isJson, i);
      if |frame| == 0 || |frame| > MAX_FRAME_BYTES { return Some(FrameSize); }
      if !isJson(frame) { return Some(NotJson); }
      total := total + |frame|;
      assert frames[..i + 1] == frames[..i] + [frame];
      assert frames[..i + 1][..i] == frames[..i];
    }
    assert frames[..|frames|] == frames;
    if total > MAX_TOTAL_BYTES { return Some(TotalSize); }
    return None;
  }

  // ---- The frames ------------------------------------------------------------------------------

  /** Characters that json.Marshal copies through as one byte. */
  predicate PlainChar(c: char) {
    ' ' <= c <= '~' && c != '"' && c != '\\' && c != '<' && c != '>' && c != '&'
  }

  predicate PlainId(id: string) { forall c <- id :: PlainChar(c) }

  function Chars(s: string): seq<J.Elem> { seq(|s|, i requires 0 <= i < |s| => J.Plain(s[i])) }

  const CHANNEL := "www.bidrl.com-item-"

  function Field(key: string, v: J.Json, rest: J.Members): J.Members {
    J.AMember(Chars(key), "", "", v, "", "", rest)
  }

  /** The object of one subscribe frame; json.Marshal orders map keys and adds no white space. */
  function FrameValue(id: string): J.Json {
    J.Obj("", Field("data", J.Obj("", Field("channel", J.Str(Chars(CHANNEL + id)), J.NoMembers)),
              Field("event", J.Str(Chars("pusher:subscribe")), J.NoMembers)))
  }

  function Frame(id: string): string { J.Print(FrameValue(id)) }

  lemma {:induction false} PrintChars(s: string)
    ensures J.PrintElems(Chars(s)) == s
    decreases |s|
  {
    if s != "" {
      PrintChars(s[1..]);
      assert Chars(s)[1..] == Chars(s[1..]);
      assert [s[0]] + s[1..] == s;
    }
  }

  lemma FieldLength(key: string, v: J.Json, rest: J.Members)
    ensures |J.PrintMembers(Field(key, v, rest))| ==
      |key| + 3 + |J.Print(v)| + if rest.NoMembers? then 0 else 1 + |J.PrintMembers(rest)|
  {
    PrintChars(key);
  }

  lemma PlainCharsOk(s: string)
    requires PlainId(s)
    ensures forall e <- Chars(s) :: J.ElemOk(e)
  {
    forall e | e in Chars(s) ensures J.ElemOk(e) {
      var i :| 0 <= i < |s| && Chars(s)[i] == e;
      assert s[i] in s;
    }
  }

  lemma FieldOk(key: string, v: J.Json, rest: J.Members)
    requires PlainId(key) && J.WellFormed(v) && J.MembersOk(rest)
    ensures J.MembersOk(Field(key, v, rest))
  {
    PlainCharsOk(key);
  }

  lemma ConstantsArePlain()
    ensures PlainId("data") && PlainId("channel") && PlainId("event") && PlainId("pusher:subscribe") && PlainId(CHANNEL)
  {
  }

  lemma StrField(key: string, text: string)
    requires PlainId(key) && PlainId(text)
    ensures J.MembersOk(Field(key, J.Str(Chars(text)), J.NoMembers))
    ensures |J.PrintMembers(Field(key, J.Str(Chars(text)), J.NoMembers))| == |key| + |text| + 5
  {
    PlainCharsOk(text);
    PrintChars(text);
    FieldOk(key, J.Str(Chars(text)), J.NoMembers);
    FieldLength(key, J.Str(Chars(text)), J.NoMembers);
  }

  /** A frame is well-formed JSON of 69 bytes plus the id. */
  lemma FrameIsJson(id: string)
    requires PlainId(id)
    ensures J.WellFormed(FrameValue(id)) && |Frame(id)| == 69 + |id|
  {
    ConstantsArePlain();
    assert PlainId(CHANNEL + id) by { assert forall c <- CHANNEL + id :: c in CHANNEL || c in id; }
    StrField("channel", CHANNEL + id);
    StrField("event", "pusher:subscribe");
    var data := J.Obj("", Field("channel", J.Str(Chars(CHANNEL + id)), J.NoMembers));
    var event := Field("event", J.Str(Chars("pusher:subscribe")), J.NoMembers);
    FieldOk("data", data, event);
    FieldLength("data", data, event);
  }

  function Quoted(s: string): string { "\"" + s + "\"" }

  function Pair(key: string, value: string): string { Quoted(key) + ":" + value }

  function Braced(s: string): string { "{" + s + "}" }

  /** The text a subscriber sends for one lot. */
  function FrameText(id: string): string {
    Braced(Pair("data", Braced(Pair("channel", Quoted("www.bidrl.com-item-" + id)))) + "," + Pair("event", Quoted("pusher:subscribe")))
  }

  lemma Unpadded(s: string)
    ensures "" + s == s
  {
  }

  lemma Regroup(a: string, b: string, c: string, d: string)
    ensures a + (b + (c + d)) == a + b + c + d
  {
  }

  /** A field without white space, followed by the rest of its object. */
  lemma FieldText(key: string, v: J.Json, rest: J.Members)
    ensures J.PrintMembers(Field(key, v, rest)) == Pair(key, J.Print(v)) + if rest.NoMembers? then "" else "," + J.PrintMembers(rest)
  {
    PrintChars(key);
    Unpadded(J.PrintMembers(rest));
    var more := if rest.NoMembers? then "" else "," + J.PrintMembers(rest);
    Unpadded(more);
    Unpadded(J.Print(v) + more);
    Unpadded(":" + (J.Print(v) + more));
    Regroup(Quoted(key), ":", J.Print(v), more);
  }

  lemma LastFieldText(key: string, text: string)
    ensures J.PrintMembers(Field(key, J.Str(Chars(text)), J.NoMembers)) == Pair(key, Quoted(text))
  {
    FieldText(key, J.Str(Chars(text)), J.NoMembers);
    PrintChars(text);
  }

  lemma FirstFieldText(key: string, v: J.Json, rest: J.Members)
    requires rest.AMember?
    ensures J.PrintMembers(Field(key, v, rest)) == Pair(key, J.Print(v)) + "," + J.PrintMembers(rest)
  {
    FieldText(key, v, rest);
    assert forall x: string, y: string :: x + ("," + y) == x + "," + y;
  }

  lemma ObjText(members: J.Members)
    ensures J.Print(J.Obj("", members)) == Braced(J.PrintMembers(members))
  {
  }

  lemma NestedText(outer: string, inner: string, text: string, other: string, value: string)
    ensures var nested := J.Obj("", Field(inner, J.Str(Chars(text)), J.NoMembers));
      J.Print(J.Obj("", Field(outer, nested, Field(other, J.Str(Chars(value)), J.NoMembers)))) ==
      Braced(Pair(outer, Braced(Pair(inner, Quoted(text)))) + "," + Pair(other, Quoted(value)))
  {
    var one := Field(inner, J.Str(Chars(text)), J.NoMembers);
    var two := Field(other, J.Str(Chars(value)), J.NoMembers);
    LastFieldText(inner, text);
    LastFieldText(other, value);
    ObjText(one);
    FirstFieldText(outer, J.Obj("", one), two);
    ObjText(Field(outer, J.Obj("", one), two));
  }

  /** Each frame asks for its own lot's channel, byte for byte. */
  lemma FrameSpelled(id: string)
    ensures Frame(id) == FrameText(id)
  {
    NestedText("data", "channel", CHANNEL + id, "event", "pusher:subscribe");
  }

  function Frames(ids: seq<string>): (fs: seq<string>)
    ensures |fs| == |ids| && forall i :: 0 <= i < |ids| ==> fs[i] == Frame(ids[i])
  {
    seq(|ids|, i requires 0 <= i < |ids| => Frame(ids[i]))
  }

  lemma {:induction false} TotalBounds(fs: seq<string>)
    ensures (forall f <- fs :: |f| <= 69 + MAX_SAFE_ID) ==> TotalBytes(fs) <= |fs| * (69 + MAX_SAFE_ID)
    ensures (forall f <- fs :: |f| > 69 + MAX_SAFE_ID) ==> TotalBytes(fs) >= |fs| * (70 + MAX_SAFE_ID)
    decreases |fs|
  {
    if fs != [] {
      var n := |fs| - 1;
      assert forall f <- fs[..n] :: f in fs;
      TotalBounds(fs[..n]);
      assert fs[n] in fs;
    }
  }

  lemma FrameSizes(ids: seq<string>, f: string) returns (id: string)
    requires f in Frames(ids) && forall id <- ids :: PlainId(id)
    ensures id in ids && f == Frame(id) && |f| == 69 + |id| && J.WellFormed(FrameValue(id))
  {
    var i :| 0 <= i < |Frames(ids)| && Frames(ids)[i] == f;
    id := ids[i];
    FrameIsJson(id);
  }

  /** The nesting json.Valid follows before it gives up. */
  const MAX_NESTING := 10_000

  /** Objects and arrays around the innermost value. */
  function Depth(j: J.Json): nat {
    match j
    case Arr(_, items) => 1 + ItemsDepth(items)
    case Obj(_, members) => 1 + MembersDepth(members)
    case _ => 0
  }

  function ItemsDepth(l: J.Items): nat { if l.NoItems? then 0 else Max(Depth(l.value), ItemsDepth(l.rest)) }

  function MembersDepth(l: J.Members): nat { if l.NoMembers? then 0 else Max(Depth(l.value), MembersDepth(l.rest)) }

  function Max(a: nat, b: nat): nat { if a >= b then a else b }

  /** json.Valid accepts at least the texts of the grammar that are not nested too deep. */
  ghost predicate AcceptsGrammar(isJson: string -> bool) {
    forall j: J.Json {:trigger J.WellFormed(j)} :: J.WellFormed(j) && Depth(j) <= MAX_NESTING ==> isJson(J.Print(j))
  }

  lemma FrameIsShallow(id: string)
    ensures Depth(FrameValue(id)) == 2
  {
    var channel := Field("channel", J.Str(Chars(CHANNEL + id)), J.NoMembers);
    var event := Field("event", J.Str(Chars("pusher:subscribe")), J.NoMembers);
    assert MembersDepth(channel) == 0 && MembersDepth(event) == 0;
    assert Depth(J.Obj("", channel)) == 1;
    assert MembersDepth(Field("data", J.Obj("", channel), event)) == 1;
  }

  /** The longest plain lot id that is safe on a full watch set. */
  const MAX_SAFE_ID := 455

  /**
   * Every handshake built from a watch set of plain ids passes the host's checks whatever order the ids
   * come in, up to 455 bytes an id: comfortably more than the 128 a lot id can have.
   */
  lemma HandshakeAccepted(watched: F.Watch, ids: seq<string>, isJson: string -> bool)
    requires |watched| <= F.MAX_LIVE_LOTS && |ids| == |watched| && AcceptsGrammar(isJson)
    requires forall id <- ids :: id in watched && PlainId(id) && |id| <= MAX_SAFE_ID
    ensures Accepted(Frames(ids), isJson)
  {
    forall f | f in Frames(ids) ensures 1 <= |f| <= 69 + MAX_SAFE_ID && isJson(f) {
      var id := FrameSizes(ids, f);
      FrameIsShallow(id);
    }
    TotalBounds(Frames(ids));
  }

  /** And 455 is exact: a full watch set of longer ids is refused. */
  lemma LongerIdsRefused(ids: seq<string>, isJson: string -> bool)
    requires |ids| == F.MAX_LIVE_LOTS && forall id <- ids :: PlainId(id) && |id| > MAX_SAFE_ID
    ensures !Accepted(Frames(ids), isJson)
  {
    forall f | f in Frames(ids) ensures |f| > 69 + MAX_SAFE_ID { var id := FrameSizes(ids, f); }
    TotalBounds(Frames(ids));
  }
}
