/** Level directories and what a key looks up to in them. A level is seen as a map from creation
    time to records; the newest table that holds the key wins, and upper levels win over lower. */
module Levels {
  import opened Wrappers
  import opened Bytes
  import opened Records
  import opened SSTable

  /** `created` is the file's birth time; a rename keeps it. */
  datatype FileData = FileData(created: nat, bytes: Bytes)

  type Dir = map<string, FileData>

  predicate EndsWith(name: string, ext: string) {
    |name| >= |ext| && name[|name| - |ext|..] == ext
  }

  predicate IsBin(name: string) {
    EndsWith(name, ".bin")
  }

  // ---- tables as files ----

  ghost predicate IsTable(b: Bytes) {
    exists t :: ValidTable(t) && Layout(t) == b
  }

  ghost function TableIn(b: Bytes): (t: Table)
    requires IsTable(b)
    ensures ValidTable(t) && Layout(t) == b
  {
    var t :| ValidTable(t) && Layout(t) == b;
    t
  }

  ghost function Contents(b: Bytes): seq<Record>
    requires IsTable(b)
  {
    TableIn(b).records
  }

  // ---- the abstract lookup ----

  type View = map<nat, seq<Record>>

  ghost predicate NewestHit(v: View, key: Bytes, created: nat) {
    && created in v
    && Find(v[created], key).Some?
    && forall c | c in v && created < c :: Find(v[c], key).None?
  }

  ghost function LevelLookup(v: View, key: Bytes): Option<Bytes> {
    if exists c :: NewestHit(v, key, c) then var c :| NewestHit(v, key, c); Find(v[c], key) else None
  }

  ghost function TreeLookup(vs: seq<View>, key: Bytes): Option<Bytes> {
    if vs == [] then None
    else if LevelLookup(vs[0], key).Some? then LevelLookup(vs[0], key)
    else TreeLookup(vs[1..], key)
  }

  lemma HitDecides(v: View, key: Bytes, created: nat)
    requires NewestHit(v, key, created)
    ensures LevelLookup(v, key) == Find(v[created], key)
  {
    forall c | NewestHit(v, key, c) ensures c == created {
    }
  }

  /** Among the tables newer than `c` that hold the key there is a newest. */
  lemma {:induction false} NewestExistsAbove(v: View, key: Bytes, c: nat, later: set<nat>)
    requires later == set d | d in v && c < d
    requires exists d :: d in later && Find(v[d], key).Some?
    ensures exists d :: NewestHit(v, key, d)
    decreases |later|
  {
    var d :| d in later && Find(v[d], key).Some?;
    if !NewestHit(v, key, d) {
      var e :| e in v && d < e && Find(v[e], key).Some?;
      var rest := set x | x in v && d < x;
      assert e in rest && rest <= later - {d};
      Smaller(rest, later, d);
      NewestExistsAbove(v, key, d, rest);
    }
  }

  lemma Smaller(a: set<nat>, b: set<nat>, x: nat)
    requires a <= b - {x} && x in b
    ensures |a| < |b|
  {
    Subset(a, b - {x});
  }

  lemma {:induction false} Subset(a: set<nat>, b: set<nat>)
    requires a <= b
    ensures |a| <= |b|
  {
    if a != {} {
      var x :| x in a;
      Subset(a - {x}, b - {x});
    }
  }

  /** A level misses a key exactly when no table in it holds the key. */
  lemma MissIff(v: View, key: Bytes)
    ensures LevelLookup(v, key).None? <==> forall c | c in v :: Find(v[c], key).None?
  {
    if c :| c in v && Find(v[c], key).Some? {
      if !NewestHit(v, key, c) {
        var d :| d in v && c < d && Find(v[d], key).Some?;
        NewestExistsAbove(v, key, c, set x | x in v && c < x);
      }
      var h :| NewestHit(v, key, h);
      HitDecides(v, key, h);
    }
  }

  /** A table newer than the whole level is consulted first. */
  lemma AddNewest(v: View, created: nat, rs: seq<Record>, key: Bytes)
    requires forall c | c in v :: c < created
    ensures LevelLookup(v[created := rs], key) ==
            if Find(rs, key).Some? then Find(rs, key) else LevelLookup(v, key)
  {
    var w := v[created := rs];
    if Find(rs, key).Some? {
      HitDecides(w, key, created);
    } else if c :| NewestHit(v, key, c) {
      HitDecides(v, key, c);
      assert NewestHit(w, key, c);
      HitDecides(w, key, c);
    } else {
      MissIff(v, key);
      MissIff(w, key);
    }
  }

  // ---- directories as levels ----

  /** Every `.bin` file is a table, and no two share a creation time. */
  ghost predicate ValidDir(d: Dir) {
    && (forall n | n in d && IsBin(n) :: IsTable(d[n].bytes))
    && (forall n, m | n in d && m in d && IsBin(n) && IsBin(m) && n != m :: d[n].created != d[m].created)
  }

  ghost function ViewOf(d: Dir): View
    requires ValidDir(d)
  {
    map n | n in d && IsBin(n) :: d[n].created := Contents(d[n].bytes)
  }

  ghost function ViewsOf(ds: seq<Dir>): (vs: seq<View>)
    requires forall i | 0 <= i < |ds| :: ValidDir(ds[i])
    ensures |vs| == |ds|
  {
    seq(|ds|, i requires 0 <= i < |ds| => ViewOf(ds[i]))
  }
}
