/** service/dream_compression.go: near-duplicate conclusions are merged pairwise, in place, and
    the ids that lost are deleted. A word is a significant word of the tokenizer, which is a
    parameter; the similarity is the Jaccard ratio of two word sets, compared with 0.6. */
module DreamCompression {

  type Content = seq<bv8>
  type Word = string

  datatype Conclusion = Conclusion(id: int, content: Content)

  type Tokenizer = Content -> set<Word>

  /** `textmatch.Jaccard`, with 0 for an empty side. */
  function Jaccard(a: set<Word>, b: set<Word>): (r: real)
    ensures 0.0 <= r <= 1.0
    ensures r == 1.0 <==> a == b && a != {}
  {
    if |a| == 0 || |b| == 0 then 0.0
    else
      UnionSize(a, b);
      Ratio(|a * b|, |a + b|);
      (|a * b| as real) / (|a + b| as real)
  }

  lemma Ratio(n: nat, d: nat)
    requires n <= d && d > 0
    ensures 0.0 <= (n as real) / (d as real) <= 1.0
    ensures (n as real) / (d as real) == 1.0 <==> n == d
  {
    var q := (n as real) / (d as real);
    assert q * (d as real) == n as real;
    assert q == 1.0 ==> q * (d as real) == d as real;
  }

  lemma UnionSize(a: set<Word>, b: set<Word>)
    ensures |a * b| <= |a| <= |a + b|
    ensures |a * b| == |a + b| ==> a == b
  {
    assert a + b == a + (b - a);
    assert |a + b| == |a| + |b - a|;
    assert a == (a * b) + (a - b);
    assert |a| == |a * b| + |a - b|;
  }

  predicate Similar(words: Tokenizer, a: Conclusion, b: Conclusion) {
    Jaccard(words(a.content), words(b.content)) > 0.6
  }

  lemma SimilarSymmetric(words: Tokenizer, a: Conclusion, b: Conclusion)
    ensures Similar(words, a, b) <==> Similar(words, b, a)
  {
    var x, y := words(a.content), words(b.content);
    assert x * y == y * x && x + y == y + x;
  }

  /** `b` can stand in for `a`. */
  predicate Covers(words: Tokenizer, b: Conclusion, a: Conclusion) {
    Similar(words, a, b) && |a.content| <= |b.content|
  }

  ghost predicate DistinctIds(rows: seq<Conclusion>) {
    forall p, q :: 0 <= p < q < |rows| ==> rows[p].id != rows[q].id
  }

  /** No two rows are similar. */
  ghost predicate Irredundant(words: Tokenizer, rows: seq<Conclusion>) {
    forall p, q :: 0 <= p < q < |rows| ==> !Similar(words, rows[p], rows[q])
  }

  /** The rows that are left once the tombstoned ids are deleted. */
  function Survivors(rows: seq<Conclusion>, tombstoned: set<int>): seq<Conclusion> {
    if rows == [] then []
    else (if rows[0].id in tombstoned then [] else [rows[0]]) + Survivors(rows[1..], tombstoned)
  }

  /** A chain of stand-ins from row `k` to a row that is left. */
  ghost predicate LeadsToSurvivor(words: Tokenizer, rows: seq<Conclusion>, tombstoned: set<int>,
                                  k: nat, path: seq<nat>) {
    && path != [] && path[0] == k
    && (forall m :: 0 <= m < |path| ==> path[m] < |rows|)
    && (forall m :: 0 <= m < |path| - 1 ==> Covers(words, rows[path[m + 1]], rows[path[m]]))
    && rows[path[|path| - 1]].id !in tombstoned
  }

  /** Every tombstoned row leads to a survivor. */
  ghost predicate Dominated(words: Tokenizer, rows: seq<Conclusion>, tombstoned: set<int>) {
    forall k :: 0 <= k < |rows| && rows[k].id in tombstoned ==>
      exists path :: LeadsToSurvivor(words, rows, tombstoned, k, path)
  }

  // ----- The order of deaths -----

  /** dead[p] was tombstoned in favour of heir[p], which was alive then. */
  ghost predicate Deaths(words: Tokenizer, rows: seq<Conclusion>, dead: seq<nat>, heir: seq<nat>) {
    && |heir| == |dead|
    && (forall p :: 0 <= p < |dead| ==> dead[p] < |rows| && heir[p] < |rows|)
    && (forall p, q :: 0 <= p < q < |dead| ==> dead[p] != dead[q])
    && (forall p, q :: 0 <= q <= p < |dead| ==> heir[p] != dead[q])
    && (forall p :: 0 <= p < |dead| ==> Covers(words, rows[heir[p]], rows[dead[p]]))
  }

  /** `ids` are the ids of the dead rows. */
  ghost predicate IdsOf(rows: seq<Conclusion>, dead: seq<nat>, ids: set<int>) {
    && (forall p :: 0 <= p < |dead| ==> dead[p] < |rows| && rows[dead[p]].id in ids)
    && (forall id | id in ids :: exists p :: 0 <= p < |dead| && dead[p] < |rows| && rows[dead[p]].id == id)
  }

  lemma SameIdSameRow(rows: seq<Conclusion>, k: nat, l: nat)
    requires DistinctIds(rows) && k < |rows| && l < |rows| && rows[k].id == rows[l].id
    ensures k == l
  {
  }

  lemma NothingDead(words: Tokenizer, rows: seq<Conclusion>)
    ensures Deaths(words, rows, [], []) && IdsOf(rows, [], {}) && Settled(words, rows, [], 0)
  {
  }

  lemma NothingBetween(words: Tokenizer, rows: seq<Conclusion>, dead: seq<nat>, i: nat)
    requires i < |rows|
    ensures Apart(words, rows, dead, i, i + 1)
  {
  }

  lemma AliveById(rows: seq<Conclusion>, dead: seq<nat>, ids: set<int>, k: nat)
    requires DistinctIds(rows) && k < |rows|
    requires IdsOf(rows, dead, ids)
    ensures rows[k].id in ids <==> k in dead
  {
    if rows[k].id in ids {
      var p :| 0 <= p < |dead| && dead[p] < |rows| && rows[dead[p]].id == rows[k].id;
      SameIdSameRow(rows, dead[p], k);
    }
  }

  lemma {:induction false} ChainFrom(words: Tokenizer, rows: seq<Conclusion>, dead: seq<nat>, heir: seq<nat>,
                                     ids: set<int>, p: nat) returns (path: seq<nat>)
    requires DistinctIds(rows) && Deaths(words, rows, dead, heir) && IdsOf(rows, dead, ids)
    requires p < |dead|
    ensures LeadsToSurvivor(words, rows, ids, dead[p], path)
    decreases |dead| - p
  {
    AliveById(rows, dead, ids, heir[p]);
    if heir[p] in dead {
      var q :| 0 <= q < |dead| && dead[q] == heir[p];
      assert q > p;
      var rest := ChainFrom(words, rows, dead, heir, ids, q);
      path := [dead[p]] + rest;
    } else {
      path := [dead[p], heir[p]];
    }
  }

  lemma DeathsDominate(words: Tokenizer, rows: seq<Conclusion>, dead: seq<nat>, heir: seq<nat>, ids: set<int>)
    requires DistinctIds(rows) && Deaths(words, rows, dead, heir) && IdsOf(rows, dead, ids)
    ensures Dominated(words, rows, ids)
  {
    forall k | 0 <= k < |rows| && rows[k].id in ids
      ensures exists path :: LeadsToSurvivor(words, rows, ids, k, path)
    {
      AliveById(rows, dead, ids, k);
      var p :| 0 <= p < |dead| && dead[p] == k;
      var path := ChainFrom(words, rows, dead, heir, ids, p);
    }
  }

  // ----- What survives -----

  lemma {:induction false} SurvivorOrigin(rows: seq<Conclusion>, tombstoned: set<int>, i: nat) returns (k: nat)
    requires i < |Survivors(rows, tombstoned)|
    ensures k < |rows| && Survivors(rows, tombstoned)[i] == rows[k] && rows[k].id !in tombstoned && k >= i
  {
    if rows[0].id in tombstoned {
      k := SurvivorOrigin(rows[1..], tombstoned, i);
      k := k + 1;
    } else if i == 0 {
      k := 0;
    } else {
      k := SurvivorOrigin(rows[1..], tombstoned, i - 1);
      k := k + 1;
    }
  }

  /** Deleting rows leaves their order: survivors i < j come from rows k < l. */
  lemma {:induction false} SurvivorsInOrder(rows: seq<Conclusion>, tombstoned: set<int>, i: nat, j: nat)
    returns (k: nat, l: nat)
    requires i < j < |Survivors(rows, tombstoned)|
    ensures k < l < |rows| && rows[k].id !in tombstoned && rows[l].id !in tombstoned
    ensures Survivors(rows, tombstoned)[i] == rows[k] && Survivors(rows, tombstoned)[j] == rows[l]
  {
    if rows[0].id in tombstoned {
      k, l := SurvivorsInOrder(rows[1..], tombstoned, i, j);
      k, l := k + 1, l + 1;
    } else if i == 0 {
      l := SurvivorOrigin(rows[1..], tombstoned, j - 1);
      k, l := 0, l + 1;
    } else {
      k, l := SurvivorsInOrder(rows[1..], tombstoned, i - 1, j - 1);
      k, l := k + 1, l + 1;
    }
  }

  lemma {:induction false} SurvivorsAll(rows: seq<Conclusion>)
    ensures Survivors(rows, {}) == rows
  {
    if rows != [] {
      SurvivorsAll(rows[1..]);
    }
  }

  ghost predicate HasRow(rows: seq<Conclusion>, id: int) {
    exists k :: 0 <= k < |rows| && rows[k].id == id
  }

  lemma {:induction false} SurvivorsCount(rows: seq<Conclusion>, tombstoned: set<int>)
    requires DistinctIds(rows)
    requires forall id | id in tombstoned :: HasRow(rows, id)
    ensures |Survivors(rows, tombstoned)| + |tombstoned| == |rows|
  {
    if rows == [] {
      forall id ensures id !in tombstoned {
        assert id in tombstoned ==> HasRow(rows, id);
      }
      assert tombstoned == {};
    } else {
      var rest, less := rows[1..], tombstoned - {rows[0].id};
      forall id | id in less ensures HasRow(rest, id) {
        var k :| 0 <= k < |rows| && rows[k].id == id;
        assert rest[k - 1].id == id;
      }
      SurvivorsCount(rest, less);
      SurvivorsIgnore(rest, tombstoned, rows[0].id);
    }
  }

  lemma {:induction false} SurvivorsIgnore(rows: seq<Conclusion>, tombstoned: set<int>, id: int)
    requires forall k | 0 <= k < |rows| :: rows[k].id != id
    ensures Survivors(rows, tombstoned - {id}) == Survivors(rows, tombstoned)
  {
    if rows != [] {
      SurvivorsIgnore(rows[1..], tombstoned, id);
    }
  }

  // ----- The loop -----

  /** `ExecuteDreamCompression`'s nested loop, over the slice it read. Slot i is overwritten by
      a longer row that stays in its own slot as well. */
  method Merge(words: Tokenizer, conclusions: array<Conclusion>) returns (tombstoned: set<int>, compressed: nat)
    requires DistinctIds(conclusions[..])
    modifies conclusions
    ensures Irredundant(words, Survivors(old(conclusions[..]), tombstoned))
    ensures Dominated(words, old(conclusions[..]), tombstoned)
    ensures compressed == |tombstoned|
    ensures |Survivors(old(conclusions[..]), tombstoned)| + compressed == conclusions.Length
    ensures forall id | id in tombstoned :: HasRow(old(conclusions[..]), id)
    ensures compressed == 0 <==> Irredundant(words, old(conclusions[..]))
  {
    hide Similar, Deaths, IdsOf, Survivors, Dominated, Settled, Apart, Irredundant, DistinctIds, Jaccard, HasRow;
    tombstoned, compressed := {}, 0;
    ghost var rows := conclusions[..];
    ghost var dead: seq<nat>, heir: seq<nat> := [], [];
    NothingDead(words, rows);
    var i := 0;
    while i < conclusions.Length
      invariant 0 <= i <= |rows| == conclusions.Length
      invariant forall k :: i <= k < |rows| ==> conclusions[k] == rows[k]
      invariant Deaths(words, rows, dead, heir) && IdsOf(rows, dead, tombstoned)
      invariant compressed == |tombstoned| == |dead|
      invariant Settled(words, rows, dead, i)
    {
      AliveById(rows, dead, tombstoned, i);
      if conclusions[i].id in tombstoned {
        SettledMore(words, rows, dead, i);
        i := i + 1;
        continue;
      }
      ghost var at := i;
      var j := i + 1;
      NothingBetween(words, rows, dead, i);
      while j < conclusions.Length
        invariant i < j <= |rows| == conclusions.Length
        invariant forall k :: i < k < |rows| ==> conclusions[k] == rows[k]
        invariant i <= at < j && at !in dead && conclusions[i] == rows[at]
        invariant Deaths(words, rows, dead, heir) && IdsOf(rows, dead, tombstoned)
        invariant compressed == |tombstoned| == |dead|
        invariant Settled(words, rows, dead, i)
        invariant i in dead || (at == i && Apart(words, rows, dead, i, j))
      {
        AliveById(rows, dead, tombstoned, j);
        AliveById(rows, dead, tombstoned, at);
        if conclusions[j].id in tombstoned {
          if i !in dead {
            ApartMore(words, rows, dead, i, j);
          }
          j := j + 1;
          continue;
        }
        if Similar(words, conclusions[i], conclusions[j]) {
          if |conclusions[j].content| > |conclusions[i].content| {
            Tombstone(words, rows, dead, heir, tombstoned, i, j, at, j);
            tombstoned := tombstoned + {conclusions[i].id};
            conclusions[i] := conclusions[j];
            dead, heir, at := dead + [at], heir + [j], j;
          } else {
            SimilarSymmetric(words, rows[at], rows[j]);
            Tombstone(words, rows, dead, heir, tombstoned, i, j, j, at);
            tombstoned := tombstoned + {conclusions[j].id};
            dead, heir := dead + [j], heir + [at];
          }
          compressed := compressed + 1;
        }
        if i !in dead {
          ApartMore(words, rows, dead, i, j);
        }
        j := j + 1;
      }
      SettledMore(words, rows, dead, i);
      i := i + 1;
    }
    MergeMeaning(words, rows, dead, heir, tombstoned);
  }

  /** Row i is dissimilar from every row alive between it and j. */
  ghost predicate Apart(words: Tokenizer, rows: seq<Conclusion>, dead: seq<nat>, i: nat, j: nat) {
    i < j <= |rows| && forall q :: i < q < j && q !in dead ==> !Similar(words, rows[i], rows[q])
  }

  /** Each row before i is dead, or dissimilar from every row alive after it. */
  ghost predicate Settled(words: Tokenizer, rows: seq<Conclusion>, dead: seq<nat>, i: nat) {
    i <= |rows| && forall p :: 0 <= p < i && p !in dead ==> Apart(words, rows, dead, p, |rows|)
  }

  lemma DeathKeepsSettled(words: Tokenizer, rows: seq<Conclusion>, dead: seq<nat>, i: nat, j: nat, k: nat)
    requires Settled(words, rows, dead, i)
    ensures Settled(words, rows, dead + [k], i)
    ensures Apart(words, rows, dead, i, j) ==> Apart(words, rows, dead + [k], i, j)
  {
    hide Similar;
    forall p | 0 <= p < i && p !in dead + [k] ensures Apart(words, rows, dead + [k], p, |rows|) {
      assert Apart(words, rows, dead, p, |rows|);
    }
  }

  lemma ApartMore(words: Tokenizer, rows: seq<Conclusion>, dead: seq<nat>, i: nat, j: nat)
    requires Apart(words, rows, dead, i, j) && j < |rows|
    requires j in dead || !Similar(words, rows[i], rows[j])
    ensures Apart(words, rows, dead, i, j + 1)
  {
  }

  lemma SettledMore(words: Tokenizer, rows: seq<Conclusion>, dead: seq<nat>, i: nat)
    requires Settled(words, rows, dead, i) && i < |rows|
    requires i in dead || Apart(words, rows, dead, i, |rows|)
    ensures Settled(words, rows, dead, i + 1)
  {
  }

  lemma DeathMore(words: Tokenizer, rows: seq<Conclusion>, dead: seq<nat>, heir: seq<nat>, k: nat, l: nat)
    requires Deaths(words, rows, dead, heir)
    requires k < |rows| && l < |rows| && k !in dead && l !in dead && k != l
    requires Covers(words, rows[l], rows[k])
    ensures Deaths(words, rows, dead + [k], heir + [l])
  {
    hide Covers;
    var dead', heir' := dead + [k], heir + [l];
    assert forall p :: 0 <= p < |dead| ==> dead'[p] == dead[p] && heir'[p] == heir[p];
  }

  lemma IdsOfMore(rows: seq<Conclusion>, dead: seq<nat>, ids: set<int>, k: nat)
    requires IdsOf(rows, dead, ids) && k < |rows|
    ensures IdsOf(rows, dead + [k], ids + {rows[k].id})
  {
    var dead', ids' := dead + [k], ids + {rows[k].id};
    forall id | id in ids' ensures exists p :: 0 <= p < |dead'| && dead'[p] < |rows| && rows[dead'[p]].id == id {
      if id in ids {
        var p :| 0 <= p < |dead| && dead[p] < |rows| && rows[dead[p]].id == id;
        assert dead'[p] == dead[p];
      } else {
        assert dead'[|dead|] == k;
      }
    }
  }

  /** What it takes to tombstone row k for row l while i is compared with j. */
  lemma Tombstone(words: Tokenizer, rows: seq<Conclusion>, dead: seq<nat>, heir: seq<nat>, ids: set<int>,
                  i: nat, j: nat, k: nat, l: nat)
    requires Deaths(words, rows, dead, heir) && IdsOf(rows, dead, ids) && Settled(words, rows, dead, i)
    requires k < |rows| && l < |rows| && k !in dead && l !in dead && k != l && rows[k].id !in ids
    requires Similar(words, rows[k], rows[l]) && |rows[k].content| <= |rows[l].content|
    ensures var (dead', ids') := (dead + [k], ids + {rows[k].id});
      && Deaths(words, rows, dead', heir + [l]) && IdsOf(rows, dead', ids') && Settled(words, rows, dead', i)
      && |ids'| == |ids| + 1 && l !in dead'
      && (Apart(words, rows, dead, i, j) ==> Apart(words, rows, dead', i, j))
  {
    DeathMore(words, rows, dead, heir, k, l);
    IdsOfMore(rows, dead, ids, k);
    DeathKeepsSettled(words, rows, dead, i, j, k);
    hide Deaths, IdsOf, Settled, Apart, Similar;
  }

  lemma MergeMeaning(words: Tokenizer, rows: seq<Conclusion>, dead: seq<nat>, heir: seq<nat>, ids: set<int>)
    requires DistinctIds(rows) && Deaths(words, rows, dead, heir) && IdsOf(rows, dead, ids)
    requires |ids| == |dead|
    requires Settled(words, rows, dead, |rows|)
    ensures Irredundant(words, Survivors(rows, ids))
    ensures Dominated(words, rows, ids)
    ensures |Survivors(rows, ids)| + |ids| == |rows| && forall id | id in ids :: HasRow(rows, id)
    ensures ids == {} <==> Irredundant(words, rows)
  {
    hide Similar;
    var left := Survivors(rows, ids);
    forall p, q | 0 <= p < q < |left| ensures !Similar(words, left[p], left[q]) {
      var k, l := SurvivorsInOrder(rows, ids, p, q);
      AliveById(rows, dead, ids, k);
      AliveById(rows, dead, ids, l);
    }
    DeathsDominate(words, rows, dead, heir, ids);
    forall id | id in ids ensures HasRow(rows, id) {
      var p :| 0 <= p < |dead| && dead[p] < |rows| && rows[dead[p]].id == id;
    }
    SurvivorsCount(rows, ids);
    if ids == {} {
      SurvivorsAll(rows);
    } else {
      assert Covers(words, rows[heir[0]], rows[dead[0]]) && heir[0] != dead[0];
      SimilarSymmetric(words, rows[heir[0]], rows[dead[0]]);
    }
  }

  // ----- The job -----

  /** Deleting in two steps is deleting at once. */
  lemma {:induction false} SurvivorsTwice(rows: seq<Conclusion>, first: set<int>, then_: set<int>)
    ensures Survivors(Survivors(rows, first), then_) == Survivors(rows, first + then_)
  {
    if rows != [] {
      SurvivorsTwice(rows[1..], first, then_);
      var left := Survivors(rows, first);
      if rows[0].id in first {
        assert left == Survivors(rows[1..], first);
        assert Survivors(rows, first + then_) == Survivors(rows[1..], first + then_);
      } else {
        assert left[0] == rows[0] && left[1..] == Survivors(rows[1..], first);
      }
    }
  }

  /** The deletions that went through leave the other rows, those that failed among them. */
  lemma FailedStay(rows: seq<Conclusion>, tombstoned: set<int>, failing: set<int>)
    requires DistinctIds(rows) && forall id | id in tombstoned :: HasRow(rows, id)
    ensures |Survivors(rows, tombstoned - failing)| + |tombstoned| == |rows| + |tombstoned * failing|
  {
    var deleted := tombstoned - failing;
    assert tombstoned == deleted + tombstoned * failing;
    assert |tombstoned| == |deleted| + |tombstoned * failing|;
    SurvivorsCount(rows, deleted);
  }

  /** What a run of the job leaves: the rows but for those it could delete. The count it reports is
      that of the rows it meant to delete; were they all gone, the rest would dominate and be
      irredundant. */
  ghost predicate Compressed(words: Tokenizer, rows: seq<Conclusion>, failing: set<int>, compressed: nat,
                             rows': seq<Conclusion>, tombstoned: set<int>)
  {
    && rows' == Survivors(rows, tombstoned - failing)
    && compressed == |tombstoned|
    && Irredundant(words, Survivors(rows, tombstoned)) && Dominated(words, rows, tombstoned)
    && |rows'| + compressed == |rows| + |tombstoned * failing|
  }

  /** The reported count and the rows left add up to the rows there were exactly when no deletion
      of a tombstoned row failed. */
  lemma CountAddsUp(words: Tokenizer, rows: seq<Conclusion>, failing: set<int>, compressed: nat,
                    rows': seq<Conclusion>, tombstoned: set<int>)
    requires Compressed(words, rows, failing, compressed, rows', tombstoned)
    ensures |rows'| + compressed >= |rows|
    ensures |rows'| + compressed == |rows| <==> tombstoned !! failing
  {
    hide Irredundant, Dominated, Survivors;
    var stayed := tombstoned * failing;
    if tombstoned !! failing {
      assert stayed == {};
    }
    if stayed == {} {
      forall id | id in tombstoned ensures id !in failing {
        assert id in stayed <==> id in failing;
      }
    }
  }

  /** Two rows of the same words, neither of which can be deleted: both stay, and one is counted. */
  lemma CountIsTooHigh(words: Tokenizer, content: Content, compressed: nat, rows': seq<Conclusion>, tombstoned: set<int>)
    requires words(content) != {}
    requires Compressed(words, [Conclusion(1, content), Conclusion(2, content)], {1, 2}, compressed, rows', tombstoned)
    ensures |rows'| == 2 && compressed >= 1
  {
    var rows := [Conclusion(1, content), Conclusion(2, content)];
    assert Similar(words, rows[0], rows[1]);
    hide Similar, Dominated;
    var deleted := tombstoned - {1, 2};
    assert rows[1..] == [rows[1]] && rows[1..][1..] == [];
    assert Survivors(rows[1..], deleted) == [rows[1]];
    assert Survivors(rows, deleted) == [rows[0]] + [rows[1]];
    SurvivorsAll(rows);
    SimilarPair(words, rows);
  }

  lemma SimilarPair(words: Tokenizer, rows: seq<Conclusion>)
    requires |rows| == 2 && Similar(words, rows[0], rows[1])
    ensures !Irredundant(words, rows)
  {
    hide Similar;
  }

  lemma NotEmpty(ids: set<int>)
    ensures ids != {} <==> exists id :: id in ids
  {
    if forall id :: id !in ids {
      assert ids == {};
    }
  }

  lemma RunMeaning(words: Tokenizer, rows: seq<Conclusion>, failing: set<int>, compressed: nat,
                   rows': seq<Conclusion>, tombstoned: set<int>)
    requires rows' == Survivors(rows, tombstoned - failing) && compressed == |tombstoned|
    requires Irredundant(words, Survivors(rows, tombstoned)) && Dominated(words, rows, tombstoned)
    requires |rows'| + compressed == |rows| + |tombstoned * failing|
    ensures Compressed(words, rows, failing, compressed, rows', tombstoned)
    ensures failing == {} ==> Irredundant(words, rows') && |rows'| + compressed == |rows|
  {
    hide Irredundant, Dominated, Survivors;
    assert failing == {} ==> tombstoned - failing == tombstoned && tombstoned * failing == {};
  }

  /** The conclusions of one workspace, in creation order. */
  class ConclusionStore {
    var rows: seq<Conclusion>

    /** `ExecuteDreamCompression`. `failing` holds the ids whose deletion the database refuses; the
        job logs that and goes on, in no particular order. */
    method ExecuteDreamCompression(words: Tokenizer, failing: set<int>) returns (compressed: nat)
      requires DistinctIds(rows)
      modifies this
      ensures exists tombstoned :: Compressed(words, old(rows), failing, compressed, rows, tombstoned)
      ensures failing == {} ==> Irredundant(words, rows) && |rows| + compressed == |old(rows)|
      ensures compressed == 0 <==> Irredundant(words, old(rows))
    {
      var conclusions := new Conclusion[|rows|](i requires 0 <= i < |rows| reads this => rows[i]);
      assert conclusions[..] == rows;
      hide *;
      ghost var before := rows;
      var tombstoned;
      tombstoned, compressed := Merge(words, conclusions);
      DeleteAll(tombstoned, failing);
      FailedStay(before, tombstoned, failing);
      RunMeaning(words, before, failing, compressed, rows, tombstoned);
    }

    /** `tombstoneConclusion` for each id. */
    method DeleteAll(tombstoned: set<int>, failing: set<int>)
      modifies this
      ensures rows == Survivors(old(rows), tombstoned - failing)
    {
      hide Survivors;
      SurvivorsAll(rows);
      var rest := tombstoned;
      assert tombstoned - tombstoned - failing == {};
      while rest != {}
        invariant rest <= tombstoned && rows == Survivors(old(rows), tombstoned - rest - failing)
        decreases rest
      {
        NotEmpty(rest);
        var id :| id in rest;
        ghost var gone := tombstoned - rest - failing;
        if id !in failing {
          SurvivorsTwice(old(rows), gone, {id});
          assert tombstoned - (rest - {id}) - failing == gone + {id};
          rows := Survivors(rows, {id});
        } else {
          assert tombstoned - (rest - {id}) - failing == gone;
        }
        rest := rest - {id};
      }
      assert tombstoned - {} - failing == tombstoned - failing;
    }
  }
}
