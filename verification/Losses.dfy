/** What a key looks up to when some tables of a level are gone. */
module Losses {
  import opened Wrappers
  import opened Bytes
  import opened Records
  import opened Merging
  import opened Levels
  import opened LsmTree
  import opened Lookups
  import opened Preservation

  /** `e` has some of the tables of `d`, unchanged, and no others. */
  ghost predicate SubLevel(e: Dir, d: Dir) {
    forall n | n in e && IsBin(n) :: n in d && e[n] == d[n]
  }

  lemma SubGood(e: Dir, d: Dir)
    requires GoodDir(d) && SubLevel(e, d)
    ensures GoodDir(e)
  {
    hide IsBin;
    hide IsTable;
    hide Contents;
    hide GoodRecords;
  }

  lemma SubView(e: Dir, d: Dir, c: nat)
    requires ValidDir(d) && ValidDir(e) && SubLevel(e, d) && c in ViewOf(e)
    ensures c in ViewOf(d) && ViewOf(d)[c] == ViewOf(e)[c]
  {
    hide IsTable;
    hide IsBin;
    hide Contents;
    hide ViewOf;
    var n := ViewFrom(e, c);
    ViewAt(d, n);
  }

  /** The table answers the key in its level. */
  ghost predicate AnswersIn(d: Dir, n: string, key: Bytes)
    requires ValidDir(d)
  {
    n in d && IsBin(n) && NewestHit(ViewOf(d), key, d[n].created)
  }

  lemma AnswerIs(d: Dir, n: string, key: Bytes)
    requires ValidDir(d) && AnswersIn(d, n, key)
    ensures LevelLookup(ViewOf(d), key) == Find(Contents(d[n].bytes), key) && Find(Contents(d[n].bytes), key).Some?
  {
    hide IsTable;
    hide IsBin;
    hide Contents;
    hide Find;
    hide LevelLookup;
    ViewAt(d, n);
    HitDecides(ViewOf(d), key, d[n].created);
  }

  /** A key that a level holds is answered by one of its tables. */
  lemma Answerer(d: Dir, key: Bytes) returns (n: string)
    requires ValidDir(d) && LevelLookup(ViewOf(d), key).Some?
    ensures AnswersIn(d, n, key)
  {
    hide IsTable;
    hide IsBin;
    hide Contents;
    hide Find;
    var c :| NewestHit(ViewOf(d), key, c);
    n := ViewFrom(d, c);
  }

  /** A key keeps its answer when the table that gave it is still there. */
  lemma AnswerStays(e: Dir, d: Dir, n: string, key: Bytes)
    requires ValidDir(d) && ValidDir(e) && SubLevel(e, d) && AnswersIn(d, n, key) && n in e
    ensures AnswersIn(e, n, key) && LevelLookup(ViewOf(e), key) == LevelLookup(ViewOf(d), key)
  {
    hide IsTable;
    hide IsBin;
    hide Contents;
    hide Find;
    hide LevelLookup;
    hide ViewOf;
    ViewAt(d, n);
    ViewAt(e, n);
    forall c | c in ViewOf(e) ensures c in ViewOf(d) && ViewOf(d)[c] == ViewOf(e)[c] {
      SubView(e, d, c);
    }
    assert NewestHit(ViewOf(e), key, e[n].created);
    AnswerIs(d, n, key);
    AnswerIs(e, n, key);
  }

  lemma MissStays(e: Dir, d: Dir, key: Bytes)
    requires ValidDir(d) && ValidDir(e) && SubLevel(e, d) && LevelLookup(ViewOf(d), key).None?
    ensures LevelLookup(ViewOf(e), key) == None
  {
    hide Find;
    hide LevelLookup;
    hide ViewOf;
    hide ValidDir;
    MissIff(ViewOf(d), key);
    forall c | c in ViewOf(e) ensures Find(ViewOf(e)[c], key).None? {
      SubView(e, d, c);
    }
    MissIff(ViewOf(e), key);
  }

  /** The lookup of a key splits into what is above a level, the level, and what is below. */
  lemma WithLevel(levels: seq<Dir>, j: nat, e: Dir, key: Bytes)
    requires GoodLevels(levels) && j < |levels| && GoodDir(e)
    ensures GoodLevels(levels[j := e]) && AllValid(levels[j := e])
    ensures AllValid(levels[..j]) && AllValid(levels[j + 1..]) && ValidDir(e)
    ensures DiskLookup(levels[j := e], key) ==
            Override(DiskLookup(levels[..j], key),
                     Override(LevelLookup(ViewOf(e), key), DiskLookup(levels[j + 1..], key)))
  {
    hide DiskLookup;
    hide LevelLookup;
    hide ViewOf;
    hide GoodDir;
    hide AllValid;
    PartsGood(levels, j);
    GoodIsValid(e);
    GoodWith(levels, j, e);
    GoodValid(levels[j := e]);
    assert levels[j := e] == levels[..j] + ([e] + levels[j + 1..]);
    hide GoodLevels;
    TreeCons(e, levels[j + 1..], key);
    TreeConcat(levels[..j], [e] + levels[j + 1..], key);
  }

  lemma GoodIsValid(d: Dir)
    requires GoodDir(d)
    ensures ValidDir(d)
  {
  }

  lemma GoodWith(levels: seq<Dir>, j: nat, e: Dir)
    requires GoodLevels(levels) && j < |levels| && GoodDir(e)
    ensures GoodLevels(levels[j := e])
  {
    hide GoodDir;
  }

  lemma LevelParts(levels: seq<Dir>, j: nat, key: Bytes)
    requires GoodLevels(levels) && j < |levels|
    ensures AllValid(levels) && AllValid(levels[..j]) && AllValid(levels[j + 1..]) && GoodDir(levels[j])
    ensures DiskLookup(levels, key) ==
            Override(DiskLookup(levels[..j], key),
                     Override(LevelLookup(ViewOf(levels[j]), key), DiskLookup(levels[j + 1..], key)))
  {
    hide DiskLookup;
    hide LevelLookup;
    hide ViewOf;
    hide GoodDir;
    hide AllValid;
    OneGoodDir(levels, j);
    WithLevel(levels, j, levels[j], key);
    assert levels[j := levels[j]] == levels;
  }

  /** What a key looks up to from a level on, with other tables in that level. */
  ghost function FromLevel(levels: seq<Dir>, j: nat, e: Dir, key: Bytes): Option<Bytes>
    requires GoodLevels(levels) && j < |levels| && GoodDir(e)
  {
    WithLevel(levels, j, e, key);
    Override(LevelLookup(ViewOf(e), key), DiskLookup(levels[j + 1..], key))
  }

  /** When tables of a level go, the level's answer for a key stays, unless the table that gave it is
      among them. */
  lemma LossInLevel(d: Dir, e: Dir, key: Bytes)
    requires ValidDir(d) && ValidDir(e) && SubLevel(e, d)
    ensures if exists n :: AnswersIn(d, n, key) && n !in e then LevelLookup(ViewOf(d), key).Some?
            else LevelLookup(ViewOf(e), key) == LevelLookup(ViewOf(d), key)
  {
    hide LevelLookup;
    hide ViewOf;
    hide ValidDir;
    hide AnswersIn;
    hide SubLevel;
    hide Find;
    if n :| AnswersIn(d, n, key) && n !in e {
      AnswerIs(d, n, key);
    } else if LevelLookup(ViewOf(d), key).Some? {
      var n := Answerer(d, key);
      AnswerStays(e, d, n, key);
    } else {
      MissStays(e, d, key);
    }
  }
}
