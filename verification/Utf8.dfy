/** Which byte strings are text: the automaton that accepts them, and the encoding of Unicode scalar
    values that it accepts exactly. */
module Utf8 {
  import opened Wrappers
  import opened Bytes

  /** How many continuation bytes are missing, and the range of the next one. */
  datatype Utf8State = Utf8State(pending: nat, lo: Byte, hi: Byte)

  const BETWEEN := Utf8State(0, 0, 0)

  /** What a leading byte calls for. */
  function AfterLead(b: Byte): Option<Utf8State> {
    if b < 0x80 then Some(BETWEEN)
    else if 0xC2 <= b <= 0xDF then Some(Utf8State(1, 0x80, 0xBF))
    else if 0xE0 <= b <= 0xEF then
      Some(Utf8State(2, if b == 0xE0 then 0xA0 else 0x80, if b == 0xED then 0x9F else 0xBF))
    else if 0xF0 <= b <= 0xF4 then
      Some(Utf8State(3, if b == 0xF0 then 0x90 else 0x80, if b == 0xF4 then 0x8F else 0xBF))
    else None
  }

  predicate Utf8From(s: Bytes, i: nat, st: Utf8State)
    decreases |s| - i
  {
    if i >= |s| then st.pending == 0
    else if st.pending > 0 then
      st.lo <= s[i] <= st.hi && Utf8From(s, i + 1, Utf8State(st.pending - 1, 0x80, 0xBF))
    else
      AfterLead(s[i]).Some? && Utf8From(s, i + 1, AfterLead(s[i]).value)
  }

  /** What `String::from_utf8` accepts. */
  predicate ValidUtf8(s: Bytes) {
    Utf8From(s, 0, BETWEEN)
  }

  // ---- the encoding ----

  /** A code point that is not a surrogate. */
  predicate IsScalar(c: nat) {
    c <= 0xD7FF || 0xE000 <= c <= 0x10FFFF
  }

  /** The four forms of RFC 3629, section 3. */
  function EncodeScalar(c: nat): Bytes
    requires IsScalar(c)
  {
    if c < 0x80 then [c as Byte]
    else if c < 0x800 then [(0xC0 + c / 64) as Byte, (0x80 + c % 64) as Byte]
    else if c < 0x1_0000 then [(0xE0 + c / 4096) as Byte, (0x80 + c / 64 % 64) as Byte, (0x80 + c % 64) as Byte]
    else [(0xF0 + c / 262144) as Byte, (0x80 + c / 4096 % 64) as Byte, (0x80 + c / 64 % 64) as Byte,
          (0x80 + c % 64) as Byte]
  }

  predicate AllScalar(text: seq<nat>) {
    forall i | 0 <= i < |text| :: IsScalar(text[i])
  }

  function EncodeText(text: seq<nat>): Bytes
    requires AllScalar(text)
  {
    if text == [] then [] else EncodeScalar(text[0]) + EncodeText(text[1..])
  }

  ghost predicate EncodesText(s: Bytes, text: seq<nat>) {
    AllScalar(text) && s == EncodeText(text)
  }

  ghost predicate IsText(s: Bytes) {
    exists text :: EncodesText(s, text)
  }

  // ---- the automaton accepts exactly the encodings ----

  /** The range test of the first continuation byte and of the later ones. */
  predicate Follows(s: Bytes, i: nat, st: Utf8State)
    requires i + st.pending <= |s|
  {
    (st.pending > 0 ==> st.lo <= s[i] <= st.hi) && forall j | i < j < i + st.pending :: 0x80 <= s[j] <= 0xBF
  }

  /** Reading the missing continuation bytes. */
  lemma {:induction false} Continues(s: Bytes, i: nat, st: Utf8State)
    requires i <= |s|
    ensures Utf8From(s, i, st) <==>
            i + st.pending <= |s| && Follows(s, i, st) && Utf8From(s, i + st.pending, BETWEEN)
    decreases st.pending
  {
    hide AfterLead;
    if st.pending > 0 && i < |s| {
      Continues(s, i + 1, Utf8State(st.pending - 1, 0x80, 0xBF));
    } else if st.pending == 0 && i < |s| {
      assert Utf8From(s, i, st) == Utf8From(s, i, BETWEEN);
    }
  }

  /** A scalar's bytes are a lead and what the lead calls for. */
  lemma LeadOf(c: nat)
    requires IsScalar(c)
    ensures var x := EncodeScalar(c);
            AfterLead(x[0]).Some? && |x| == 1 + AfterLead(x[0]).value.pending && Follows(x, 1, AfterLead(x[0]).value)
  {
  }

  lemma ScalarAccepted(s: Bytes, i: nat, c: nat, rest: Bytes)
    requires IsScalar(c) && i <= |s| && s[i..] == EncodeScalar(c) + rest
    ensures i + |EncodeScalar(c)| <= |s| && s[i + |EncodeScalar(c)|..] == rest
    ensures Utf8From(s, i, BETWEEN) == Utf8From(s, i + |EncodeScalar(c)|, BETWEEN)
  {
    var x := EncodeScalar(c);
    LeadOf(c);
    hide AfterLead;
    hide EncodeScalar;
    PeelFirst(s, i, x, rest);
    forall j | 0 <= j < |x| ensures s[i + j] == x[j] {
      assert s[i..][j] == x[j];
    }
    var st := AfterLead(x[0]).value;
    assert s[i] == x[0];
    assert Follows(s, i + 1, st) by {
      forall j | i + 1 < j < i + 1 + st.pending ensures 0x80 <= s[j] <= 0xBF {
        assert s[j] == x[j - i];
      }
      assert st.pending > 0 ==> s[i + 1] == x[1];
    }
    Continues(s, i + 1, st);
  }

  lemma {:induction false} TextAccepted(s: Bytes, i: nat, text: seq<nat>)
    requires AllScalar(text) && i <= |s| && s[i..] == EncodeText(text)
    ensures Utf8From(s, i, BETWEEN)
    decreases |text|
  {
    hide EncodeScalar;
    if text != [] {
      ScalarAccepted(s, i, text[0], EncodeText(text[1..]));
      TextAccepted(s, i + |EncodeScalar(text[0])|, text[1..]);
    }
  }

  /** The number a lead and its continuation bytes stand for. */
  function ScalarAt(x: Bytes): int
    requires 1 <= |x| <= 4
  {
    match |x|
    case 1 => x[0] as int
    case 2 => (x[0] as int - 0xC0) * 64 + (x[1] as int - 0x80)
    case 3 => (x[0] as int - 0xE0) * 4096 + (x[1] as int - 0x80) * 64 + (x[2] as int - 0x80)
    case _ =>
      (x[0] as int - 0xF0) * 262144 + (x[1] as int - 0x80) * 4096 + (x[2] as int - 0x80) * 64 + (x[3] as int - 0x80)
  }

  lemma SixBits(a: nat, b: nat)
    requires b < 64
    ensures (64 * a + b) / 64 == a && (64 * a + b) % 64 == b
  {
  }

  lemma TwoBytes(a: Byte, b: Byte)
    requires 0xC2 <= a <= 0xDF && 0x80 <= b <= 0xBF
    ensures var c := ScalarAt([a, b]); c >= 0 && IsScalar(c) && EncodeScalar(c) == [a, b]
  {
    SixBits(a as nat - 0xC0, b as nat - 0x80);
  }

  lemma ThreeBytes(a: Byte, b: Byte, d: Byte)
    requires 0xE0 <= a <= 0xEF && 0x80 <= b <= 0xBF && 0x80 <= d <= 0xBF
    requires (a == 0xE0 ==> 0xA0 <= b) && (a == 0xED ==> b <= 0x9F)
    ensures var c := ScalarAt([a, b, d]); c >= 0 && IsScalar(c) && EncodeScalar(c) == [a, b, d]
  {
    var (x, y, z) := (a as nat - 0xE0, b as nat - 0x80, d as nat - 0x80);
    SixBits(x, y);
    SixBits(64 * x + y, z);
    assert ScalarAt([a, b, d]) == 64 * (64 * x + y) + z;
    assert (64 * (64 * x + y) + z) / 4096 == x;
  }

  lemma FourBytes(a: Byte, b: Byte, d: Byte, e: Byte)
    requires 0xF0 <= a <= 0xF4 && 0x80 <= b <= 0xBF && 0x80 <= d <= 0xBF && 0x80 <= e <= 0xBF
    requires (a == 0xF0 ==> 0x90 <= b) && (a == 0xF4 ==> b <= 0x8F)
    ensures var c := ScalarAt([a, b, d, e]); c >= 0 && IsScalar(c) && EncodeScalar(c) == [a, b, d, e]
  {
    var (w, x, y, z) := (a as nat - 0xF0, b as nat - 0x80, d as nat - 0x80, e as nat - 0x80);
    var c := 64 * (64 * (64 * w + x) + y) + z;
    SixBits(w, x);
    SixBits(64 * w + x, y);
    SixBits(64 * (64 * w + x) + y, z);
    assert ScalarAt([a, b, d, e]) == c;
    assert c / 4096 == 64 * w + x && c / 262144 == w;
  }

  /** A lead with what it calls for is the encoding of one scalar. */
  lemma LeadIsScalar(x: Bytes)
    requires x != [] && AfterLead(x[0]).Some? && |x| == 1 + AfterLead(x[0]).value.pending
    requires Follows(x, 1, AfterLead(x[0]).value)
    ensures |x| <= 4 && ScalarAt(x) >= 0 && IsScalar(ScalarAt(x)) && EncodeScalar(ScalarAt(x)) == x
  {
    hide EncodeScalar;
    hide ScalarAt;
    match |x| {
      case 1 => OneByte(x[0]); assert x == [x[0]];
      case 2 => TwoBytes(x[0], x[1]); assert x == [x[0], x[1]];
      case 3 => ThreeBytes(x[0], x[1], x[2]); assert x == [x[0], x[1], x[2]];
      case _ => FourBytes(x[0], x[1], x[2], x[3]); assert x == [x[0], x[1], x[2], x[3]];
    }
  }

  lemma OneByte(a: Byte)
    requires a < 0x80
    ensures var c := ScalarAt([a]); c >= 0 && IsScalar(c) && EncodeScalar(c) == [a]
  {
  }

  /** The first character of an accepted string. */
  lemma FirstScalar(s: Bytes, i: nat) returns (c: nat, j: nat)
    requires i < |s| && Utf8From(s, i, BETWEEN)
    ensures i < j <= |s| && IsScalar(c) && s[i..j] == EncodeScalar(c) && Utf8From(s, j, BETWEEN)
  {
    var st := AfterLead(s[i]).value;
    j := i + 1 + st.pending;
    hide AfterLead;
    Continues(s, i + 1, st);
    hide Utf8From;
    var x := s[i..j];
    assert x[0] == s[i] && |x| == 1 + st.pending;
    SameFollows(s, i, x, st);
    LeadIsScalar(x);
    c := ScalarAt(x);
  }

  lemma SameFollows(s: Bytes, i: nat, x: Bytes, st: Utf8State)
    requires i + 1 + st.pending <= |s| && x == s[i..i + 1 + st.pending] && Follows(s, i + 1, st)
    ensures Follows(x, 1, st)
  {
    assert st.pending > 0 ==> x[1] == s[i + 1];
    forall p | 1 < p < 1 + st.pending ensures 0x80 <= x[p] <= 0xBF {
      assert x[p] == s[i + p];
    }
  }

  lemma {:induction false} AcceptedIsText(s: Bytes, i: nat) returns (text: seq<nat>)
    requires i <= |s| && Utf8From(s, i, BETWEEN)
    ensures AllScalar(text) && s[i..] == EncodeText(text)
    decreases |s| - i
  {
    hide EncodeScalar;
    if i == |s| { return []; }
    var c, j := FirstScalar(s, i);
    hide Utf8From;
    var rest := AcceptedIsText(s, j);
    assert s[i..] == s[i..j] + s[j..];
    text := [c] + rest;
    assert text[0] == c && text[1..] == rest;
  }

  /** A byte string is accepted exactly when it is the encoding of some scalar values. */
  lemma AcceptsText(s: Bytes)
    ensures ValidUtf8(s) <==> IsText(s)
  {
    assert s[0..] == s;
    if ValidUtf8(s) {
      var text := AcceptedIsText(s, 0);
      assert EncodesText(s, text);
    }
    if text :| EncodesText(s, text) {
      TextAccepted(s, 0, text);
    }
  }
}
