/**
 * The two rankers, `findOverallTopper` and `findTopperPerUniversity`: single
 * passes that replace the current holder only on a strictly greater
 * `finalScore`, so the first record with the top score wins.
 */
module Rankers {
  import opened Records

  /**
   * `gs[k]` is the overall topper: its score is positive (the pass starts
   * from the zero record), no record scores more, and every earlier record
   * scores strictly less.
   */
  ghost predicate IsOverallTopper(gs: seq<StudentStat>, k: nat) {
    && k < |gs|
    && gs[k].finalScore > 0.0
    && (forall j | 0 <= j < |gs| :: gs[j].finalScore <= gs[k].finalScore)
    && (forall j | 0 <= j < k :: gs[j].finalScore < gs[k].finalScore)
  }

  /**
   * `findOverallTopper`: the zero record when no score is positive (an empty
   * input included), otherwise the first record with the greatest score.
   */
  method FindOverallTopper(gs: seq<StudentStat>) returns (top: StudentStat)
    ensures forall j | 0 <= j < |gs| :: gs[j].finalScore <= top.finalScore
    ensures (forall j | 0 <= j < |gs| :: gs[j].finalScore <= 0.0) ==> top == ZeroStat
    ensures (exists j | 0 <= j < |gs| :: gs[j].finalScore > 0.0) ==>
      exists k | 0 <= k < |gs| :: IsOverallTopper(gs, k) && top == gs[k]
  {
    top := ZeroStat;
    ghost var at: int := -1;
    for i := 0 to |gs|
      invariant -1 <= at < i
      invariant forall j | 0 <= j < i :: gs[j].finalScore <= top.finalScore
      invariant at < 0 ==> top == ZeroStat
      invariant at >= 0 ==> top == gs[at] && top.finalScore > 0.0
      invariant at >= 0 ==> forall j | 0 <= j < at :: gs[j].finalScore < top.finalScore
    {
      if gs[i].finalScore > top.finalScore {
        top := gs[i];
        at := i;
      }
    }
    if at >= 0 {
      assert IsOverallTopper(gs, at);
    }
  }

  /** The overall topper is unique: the contract above fixes the result. */
  lemma OverallTopperUnique(gs: seq<StudentStat>, k1: nat, k2: nat)
    requires IsOverallTopper(gs, k1) && IsOverallTopper(gs, k2)
    ensures k1 == k2
  {
  }

  /**
   * Among the first `n` records, `gs[k]` is the topper of university `u`: it
   * belongs to `u`, no record of `u` scores more, and every earlier record of
   * `u` scores strictly less. Records of other universities play no part.
   */
  ghost predicate IsTopperAmong(gs: seq<StudentStat>, n: nat, u: string, k: nat) {
    && k < n <= |gs|
    && gs[k].student.university == u
    && (forall j | 0 <= j < n && gs[j].student.university == u :: gs[j].finalScore <= gs[k].finalScore)
    && (forall j | 0 <= j < k && gs[j].student.university == u :: gs[j].finalScore < gs[k].finalScore)
  }

  ghost predicate IsUniversityTopper(gs: seq<StudentStat>, u: string, k: nat) {
    IsTopperAmong(gs, |gs|, u, k)
  }

  /** The universities that occur in the records. */
  function Universities(gs: seq<StudentStat>): set<string> {
    set j | 0 <= j < |gs| :: gs[j].student.university
  }

  /**
   * `findTopperPerUniversity`: one entry per university that occurs, holding
   * the first record of that university with its greatest score.
   */
  method FindTopperPerUniversity(gs: seq<StudentStat>) returns (tops: map<string, StudentStat>)
    ensures tops.Keys == Universities(gs)
    ensures forall u | u in tops ::
      exists k | 0 <= k < |gs| :: IsUniversityTopper(gs, u, k) && tops[u] == gs[k]
  {
    tops := map[];
    ghost var at: map<string, nat> := map[];
    for i := 0 to |gs|
      invariant Tracks(gs, i, tops, at)
    {
      ghost var before, atBefore := tops, at;
      var student := gs[i];
      var uni := student.student.university;
      if uni in tops {
        if student.finalScore > tops[uni].finalScore {
          tops := tops[uni := student];
          at := at[uni := i];
        }
      } else {
        tops := tops[uni := student];
        at := at[uni := i];
      }
      TracksStep(gs, i, before, atBefore, tops, at);
    }
    forall u | u in tops
      ensures u in Universities(gs)
      ensures exists k | 0 <= k < |gs| :: IsUniversityTopper(gs, u, k) && tops[u] == gs[k]
    {
      assert IsUniversityTopper(gs, u, at[u]);
    }
  }

  /**
   * After the first `n` records, `tops` has an entry for every university
   * seen so far, and each entry is that university's topper, at index `at`.
   */
  ghost predicate Tracks(gs: seq<StudentStat>, n: nat, tops: map<string, StudentStat>, at: map<string, nat>) {
    && n <= |gs|
    && (forall j | 0 <= j < n :: gs[j].student.university in tops)
    && Holds(gs, n, tops, at)
  }

  ghost predicate Holds(gs: seq<StudentStat>, n: nat, tops: map<string, StudentStat>, at: map<string, nat>) {
    forall u | u in tops :: u in at && IsTopperAmong(gs, n, u, at[u]) && tops[u] == gs[at[u]]
  }

  /** What one iteration of `findTopperPerUniversity` does to the maps. */
  ghost predicate Step(gs: seq<StudentStat>, i: nat, tops: map<string, StudentStat>, at: map<string, nat>,
                       tops': map<string, StudentStat>, at': map<string, nat>)
    requires i < |gs|
  {
    var uni := gs[i].student.university;
    if uni !in tops || gs[i].finalScore > tops[uni].finalScore
    then tops' == tops[uni := gs[i]] && at' == at[uni := i]
    else tops' == tops && at' == at
  }

  /**
   * One step of the pass: record `i` goes in when its university is new or
   * when it scores strictly more than the holder, and nothing else changes.
   */
  lemma TracksStep(gs: seq<StudentStat>, i: nat, tops: map<string, StudentStat>, at: map<string, nat>,
                   tops': map<string, StudentStat>, at': map<string, nat>)
    requires i < |gs| && Tracks(gs, i, tops, at)
    requires Step(gs, i, tops, at, tops', at')
    ensures Tracks(gs, i + 1, tops', at')
  {
    forall u | u in tops'
      ensures u in at' && IsTopperAmong(gs, i + 1, u, at'[u]) && tops'[u] == gs[at'[u]]
    {
      HoldsStepAt(gs, i, tops, at, tops', at', u);
    }
  }

  lemma HoldsStepAt(gs: seq<StudentStat>, i: nat, tops: map<string, StudentStat>, at: map<string, nat>,
                    tops': map<string, StudentStat>, at': map<string, nat>, u: string)
    requires i < |gs| && Tracks(gs, i, tops, at)
    requires Step(gs, i, tops, at, tops', at') && u in tops'
    ensures u in at' && IsTopperAmong(gs, i + 1, u, at'[u]) && tops'[u] == gs[at'[u]]
  {
    if u !in tops {
      TopperFirst(gs, i);
    } else {
      TopperStep(gs, i, u, at[u]);
    }
  }

  /** One more record keeps each university's topper or takes its place. */
  lemma TopperStep(gs: seq<StudentStat>, i: nat, u: string, k: nat)
    requires i < |gs| && IsTopperAmong(gs, i, u, k)
    ensures gs[i].student.university != u || gs[i].finalScore <= gs[k].finalScore ==>
      IsTopperAmong(gs, i + 1, u, k)
    ensures gs[i].student.university == u && gs[i].finalScore > gs[k].finalScore ==>
      IsTopperAmong(gs, i + 1, u, i)
  {
  }

  /** The first record of a university is its topper so far. */
  lemma TopperFirst(gs: seq<StudentStat>, i: nat)
    requires i < |gs|
    requires forall j | 0 <= j < i :: gs[j].student.university != gs[i].student.university
    ensures IsTopperAmong(gs, i + 1, gs[i].student.university, i)
  {
  }

  /** Each university has one topper: the contract above fixes every entry. */
  lemma UniversityTopperUnique(gs: seq<StudentStat>, u: string, k1: nat, k2: nat)
    requires IsUniversityTopper(gs, u, k1) && IsUniversityTopper(gs, u, k2)
    ensures k1 == k2
  {
  }

  /**
   * A record of another university, inserted anywhere, changes no
   * university's topper (its index only shifts past the insertion).
   */
  lemma OtherUniversityIrrelevant(gs: seq<StudentStat>, p: nat, x: StudentStat, u: string, k: nat)
    requires p <= |gs| && k < |gs|
    requires x.student.university != u
    ensures IsUniversityTopper(gs, u, k) <==>
      IsUniversityTopper(gs[..p] + [x] + gs[p..], u, if k < p then k else k + 1)
  {
    if IsUniversityTopper(gs, u, k) {
      InsertKeepsTopper(gs, p, x, u, k);
    }
    if IsUniversityTopper(gs[..p] + [x] + gs[p..], u, if k < p then k else k + 1) {
      RemoveKeepsTopper(gs, p, x, u, k);
    }
  }

  lemma InsertKeepsTopper(gs: seq<StudentStat>, p: nat, x: StudentStat, u: string, k: nat)
    requires p <= |gs| && x.student.university != u
    requires IsUniversityTopper(gs, u, k)
    ensures IsUniversityTopper(gs[..p] + [x] + gs[p..], u, if k < p then k else k + 1)
  {
    var gs' := gs[..p] + [x] + gs[p..];
    var k' := if k < p then k else k + 1;
    assert gs'[k'] == gs[k];
    forall j | 0 <= j < |gs'| && gs'[j].student.university == u
      ensures gs'[j].finalScore <= gs'[k'].finalScore && (j < k' ==> gs'[j].finalScore < gs'[k'].finalScore)
    {
      assert j != p;
      assert gs'[j] == gs[if j < p then j else j - 1];
    }
  }

  lemma RemoveKeepsTopper(gs: seq<StudentStat>, p: nat, x: StudentStat, u: string, k: nat)
    requires p <= |gs| && k < |gs|
    requires IsUniversityTopper(gs[..p] + [x] + gs[p..], u, if k < p then k else k + 1)
    ensures IsUniversityTopper(gs, u, k)
  {
    var gs' := gs[..p] + [x] + gs[p..];
    var k' := if k < p then k else k + 1;
    assert gs'[k'] == gs[k];
    forall j | 0 <= j < |gs| && gs[j].student.university == u
      ensures gs[j].finalScore <= gs[k].finalScore && (j < k ==> gs[j].finalScore < gs[k].finalScore)
    {
      assert gs'[if j < p then j else j + 1] == gs[j];
    }
  }

  /**
   * The overall topper is also the topper of its own university, so the two
   * rankers agree wherever the overall one picks a record.
   */
  lemma OverallTopperTopsItsUniversity(gs: seq<StudentStat>, k: nat)
    requires IsOverallTopper(gs, k)
    ensures IsUniversityTopper(gs, gs[k].student.university, k)
  {
  }
}
