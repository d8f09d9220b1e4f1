/** The file names compaction makes: intermediate outputs, drained sources, promoted outputs. */
module Names {
  import opened Levels

  function DigitChar(d: nat): char
    requires d < 10
  {
    ('0' as int + d) as char
  }

  /** Decimal digits, as `format!("{}", n)` writes them. */
  function Digits(n: nat): string {
    if n < 10 then [DigitChar(n)] else Digits(n / 10) + [DigitChar(n % 10)]
  }

  function ValueOf(s: string): int {
    if s == "" then 0 else 10 * ValueOf(s[..|s| - 1]) + (s[|s| - 1] as int - '0' as int)
  }

  lemma {:induction false} DigitsInvert(n: nat)
    ensures ValueOf(Digits(n)) == n
    ensures forall c | c in Digits(n) :: '0' <= c <= '9'
  {
    if n >= 10 {
      DigitsInvert(n / 10);
      assert Digits(n)[..|Digits(n)| - 1] == Digits(n / 10);
    } else {
      assert Digits(n)[..0] == "";
    }
  }

  function UnitPrefix(id: nat): string {
    "compaction_unit" + Digits(id) + "_pass"
  }

  function PassPart(pass: nat, pair: nat): string {
    Digits(pass) + ("_" + (Digits(pair) + ".tmp"))
  }

  /** `compaction_unit{id}_pass{pass}_{pair}.tmp` */
  function OutName(id: nat, pass: nat, pair: nat): string {
    UnitPrefix(id) + PassPart(pass, pair)
  }

  lemma SplitAtBar(a: string, x: string, b: string, y: string)
    requires '_' !in a && '_' !in b
    requires a + ("_" + x) == b + ("_" + y)
    ensures a == b && x == y
  {
    var s, t := a + ("_" + x), b + ("_" + y);
    assert s[|a|] == '_' && t[|b|] == '_';
    if |a| < |b| {
      assert false;
    } else if |b| < |a| {
      assert false;
    } else {
      assert s[..|a|] == a && t[..|a|] == b;
      assert s[|a| + 1..] == x && t[|a| + 1..] == y;
    }
  }

  lemma DropSame(p: string, x: string, y: string)
    requires p + x == p + y
    ensures x == y
  {
    assert (p + x)[|p|..] == x && (p + y)[|p|..] == y;
  }

  lemma DropSuffix(x: string, y: string, s: string)
    requires x + s == y + s
    ensures x == y
  {
    assert |x| == |y|;
    assert (x + s)[..|x|] == x && (y + s)[..|x|] == y;
  }

  /** No two outputs have one name, whether of one unit or of two. */
  lemma OutNamesDiffer(id: nat, p: nat, i: nat, id2: nat, q: nat, j: nat)
    requires OutName(id, p, i) == OutName(id2, q, j)
    ensures id == id2 && p == q && i == j
  {
    UnitsDiffer(id, p, i, id2, q, j);
    DropSame(UnitPrefix(id), PassPart(p, i), PassPart(q, j));
    DigitsInvert(p);
    DigitsInvert(q);
    DigitsInvert(i);
    DigitsInvert(j);
    SplitAtBar(Digits(p), Digits(i) + ".tmp", Digits(q), Digits(j) + ".tmp");
    DropSuffix(Digits(i), Digits(j), ".tmp");
  }

  lemma UnitsDiffer(id: nat, p: nat, i: nat, id2: nat, q: nat, j: nat)
    requires OutName(id, p, i) == OutName(id2, q, j)
    ensures id == id2
  {
    OutNameParts(id, p, i);
    OutNameParts(id2, q, j);
    DropSame("compaction_unit", Digits(id) + ("_" + ("pass" + PassPart(p, i))),
             Digits(id2) + ("_" + ("pass" + PassPart(q, j))));
    DigitsInvert(id);
    DigitsInvert(id2);
    SplitAtBar(Digits(id), "pass" + PassPart(p, i), Digits(id2), "pass" + PassPart(q, j));
  }

  lemma OutNameParts(id: nat, p: nat, i: nat)
    ensures OutName(id, p, i) == "compaction_unit" + (Digits(id) + ("_" + ("pass" + PassPart(p, i))))
  {
    hide Digits;
    hide PassPart;
    assert "_pass" == "_" + "pass";
  }

  predicate IsTmp(name: string) {
    EndsWith(name, ".tmp")
  }

  lemma OutNameIsTmp(id: nat, pass: nat, pair: nat)
    ensures IsTmp(OutName(id, pass, pair))
  {
    var n := OutName(id, pass, pair);
    assert n == (UnitPrefix(id) + Digits(pass) + "_" + Digits(pair)) + ".tmp";
  }

  /** The name a source gets once its contents are merged: `.bin` becomes `.drain`. */
  function DrainedName(name: string): string {
    if IsBin(name) then name[..|name| - 4] + ".drain" else name
  }

  /** The name an output gets in the next level. */
  function PromotedName(name: string): string {
    if IsTmp(name) then name[..|name| - 4] + ".bin" else name
  }

  lemma KindsDiffer(name: string)
    ensures !(IsBin(name) && IsTmp(name))
    ensures IsBin(name) ==> !IsBin(DrainedName(name)) && !IsTmp(DrainedName(name))
    ensures !IsBin(name) ==> DrainedName(name) == name
    ensures IsTmp(name) ==> IsBin(PromotedName(name))
  {
    var n := |name|;
    if IsBin(name) {
      assert name[n - 4..][3] == name[n - 1];
      var d := DrainedName(name);
      assert d[|d| - 4..] == "rain";
      assert "rain"[0] != ".bin"[0] && "rain"[0] != ".tmp"[0];
    }
    if IsTmp(name) {
      assert name[n - 4..][3] == name[n - 1];
    }
  }

  /** Only the extension changes. */
  lemma NewExtension(x: string)
    ensures DrainedName(x + ".bin") == x + ".drain" && DrainedName(x + ".tmp") == x + ".tmp"
    ensures PromotedName(x + ".tmp") == x + ".bin"
  {
    KindsDiffer(x + ".tmp");
    assert (x + ".bin")[..|x|] == x && (x + ".tmp")[..|x|] == x;
    assert (x + ".bin")[|x|..] == ".bin" && (x + ".tmp")[|x|..] == ".tmp";
  }

  lemma PromotedApart(a: string, b: string)
    requires IsTmp(a) && IsTmp(b) && PromotedName(a) == PromotedName(b)
    ensures a == b
  {
    DropSuffix(a[..|a| - 4], b[..|b| - 4], ".bin");
    assert a == a[..|a| - 4] + ".tmp" && b == b[..|b| - 4] + ".tmp";
  }
}
