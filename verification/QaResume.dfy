/** The resumable answer generator (dataset/qa_dataset.py): two files, saved one after the other. */
module QaResume {
  import opened Basics

  datatype Answer = Answer(id: nat, text: Text)

  datatype Pair = Pair(qid: nat, aid: nat)

  /** The two files; a file that was never saved is absent. Each save is atomic. */
  class Store {
    var answers: Option<seq<Answer>>
    var qas: Option<seq<Pair>>

    constructor ()
      ensures answers == None && qas == None
    {
      answers, qas := None, None;
    }
  }

  function OrEmpty<T>(file: Option<seq<T>>): seq<T> {
    if file.Some? then file.value else []
  }

  // ---- What the files say ----

  /** Answer ids are 1, 2, ... in order. */
  predicate Numbered(answers: seq<Answer>) {
    forall i :: 0 <= i < |answers| ==> answers[i].id == i + 1
  }

  /** Every pair names a stored answer, and later pairs name later answers. */
  predicate Matched(answers: seq<Answer>, qas: seq<Pair>) {
    && (forall i :: 0 <= i < |qas| ==> 1 <= qas[i].aid <= |answers|)
    && (forall i, j :: 0 <= i < j < |qas| ==> qas[i].aid < qas[j].aid)
  }

  function Qids(qas: seq<Pair>): (r: seq<nat>)
    ensures |r| == |qas|
    ensures forall i :: 0 <= i < |qas| ==> r[i] == qas[i].qid
  {
    seq(|qas|, i requires 0 <= i < |qas| => qas[i].qid)
  }

  predicate NoRepeats(qids: seq<nat>) {
    forall i, j :: 0 <= i < j < |qids| ==> qids[i] != qids[j]
  }

  /** Stored answers that no pair names. */
  function Orphans(answers: seq<Answer>, qas: seq<Pair>): int {
    |answers| - |qas|
  }

  /** Queries with a reply to each of them. */
  type Replies = iset<(nat, Text)>

  /** The answer that a pair names is a reply to the pair's query. */
  predicate Genuine(replied: Replies, answers: seq<Answer>, qas: seq<Pair>)
    requires Matched(answers, qas)
  {
    forall i :: 0 <= i < |qas| ==> (qas[i].qid, answers[qas[i].aid - 1].text) in replied
  }

  ghost predicate Sound(replied: Replies, answers: seq<Answer>, qas: seq<Pair>) {
    Numbered(answers) && Matched(answers, qas) && Genuine(replied, answers, qas)
  }

  /** What is on disk after `kills` runs were killed. */
  ghost predicate DiskSound(store: Store, replied: Replies, kills: nat)
    reads store
  {
    && Sound(replied, OrEmpty(store.answers), OrEmpty(store.qas))
    && Orphans(OrEmpty(store.answers), OrEmpty(store.qas)) <= kills
  }

  // ---- Loading ----

  /** Both files are used, or, when one is missing or has no pair, neither. */
  predicate Resumes(store: Store)
    reads store
  {
    store.answers.Some? && store.qas.Some? && store.qas.value != []
  }

  function Loaded(store: Store): (seq<Answer>, seq<Pair>)
    reads store
  {
    if Resumes(store) then (store.answers.value, store.qas.value) else ([], [])
  }

  /** The queries that are not recorded, in order. */
  function Unrecorded(queries: seq<nat>, recorded: seq<nat>): seq<nat> {
    if queries == [] then []
    else (if queries[0] in recorded then [] else [queries[0]]) + Unrecorded(queries[1..], recorded)
  }

  lemma {:induction false} UnrecordedAppend(a: seq<nat>, b: seq<nat>, recorded: seq<nat>)
    ensures Unrecorded(a + b, recorded) == Unrecorded(a, recorded) + Unrecorded(b, recorded)
  {
    if a == [] {
      assert a + b == b;
    } else {
      assert (a + b)[1..] == a[1..] + b;
      UnrecordedAppend(a[1..], b, recorded);
    }
  }

  /** Recording the query read next, whether it is new or not. */
  lemma UnrecordedSnoc(queries: seq<nat>, i: nat, recorded: seq<nat>)
    requires i < |queries|
    ensures var before := recorded + Unrecorded(queries[..i], recorded);
            var after := recorded + Unrecorded(queries[..i + 1], recorded);
            after == if queries[i] in recorded then before else before + [queries[i]]
  {
    assert queries[..i + 1] == queries[..i] + [queries[i]];
    UnrecordedAppend(queries[..i], [queries[i]], recorded);
    assert Unrecorded([queries[i]][1..], recorded) == [];
  }

  // ---- One run ----

  /** What a run meets: the API's reply to a query at the n-th call, and the saves it makes before it is killed. */
  datatype Script = Script(maxRetries: int, replies: (nat, nat) -> Option<Text>, saves: nat)

  ghost predicate AlwaysAnswered(script: Script) {
    script.maxRetries >= 0 && forall qid: nat, n: nat :: script.replies(qid, n).Some?
  }

  ghost predicate RepliesWithin(script: Script, replied: Replies) {
    forall qid: nat, n: nat :: script.replies(qid, n).Some? ==> (qid, script.replies(qid, n).value) in replied
  }

  /** Up to maxRetries + 1 attempts at one query. */
  method Ask(script: Script, qid: nat, calls: nat) returns (reply: Option<Text>, made: nat)
    ensures calls <= made <= calls + if script.maxRetries < 0 then 0 else script.maxRetries + 1
    ensures reply.None? ==> made == calls + if script.maxRetries < 0 then 0 else script.maxRetries + 1
    ensures reply.Some? ==> made > calls && script.replies(qid, made - 1) == reply
    ensures forall n: nat :: calls <= n < (if reply.Some? then made - 1 else made) ==> script.replies(qid, n).None?
    ensures AlwaysAnswered(script) ==> reply.Some?
  {
    var retryCount := 0;
    reply, made := None, calls;
    while retryCount <= script.maxRetries
      invariant 0 <= retryCount && (retryCount == 0 || retryCount <= script.maxRetries + 1)
      invariant made == calls + retryCount && reply == None
      invariant forall n: nat :: calls <= n < made ==> script.replies(qid, n).None?
      invariant AlwaysAnswered(script) ==> retryCount == 0
      decreases script.maxRetries - retryCount
    {
      made := made + 1;
      if script.replies(qid, made - 1).Some? {
        return script.replies(qid, made - 1), made;
      }
      retryCount := retryCount + 1;
    }
  }

  /** Saves the answers, then the pairs; the run may be killed before either. */
  method Save(store: Store, answers: seq<Answer>, qas: seq<Pair>, script: Script, saves: nat)
    returns (killed: bool, made: nat)
    modifies store
    ensures !killed ==> store.answers == Some(answers) && store.qas == Some(qas)
    ensures killed == (script.saves < saves + 2) && (!killed ==> made == saves + 2)
    ensures killed ==> store.qas == old(store.qas)
    ensures killed ==> store.answers == if saves < script.saves then Some(answers) else old(store.answers)
  {
    if saves >= script.saves {
      return true, saves;
    }
    store.answers := Some(answers);
    if saves + 1 >= script.saves {
      return true, saves + 1;
    }
    store.qas := Some(qas);
    return false, saves + 2;
  }

  /** The memory of a run. */
  datatype Memory = Memory(answers: seq<Answer>, qas: seq<Pair>)

  /** The memory of a run and the files: as loaded until the first save, equal afterwards. */
  ghost predicate InStep(store: Store, replied: Replies, m: Memory, kills: nat)
    reads store
  {
    && Sound(replied, m.answers, m.qas) && Orphans(m.answers, m.qas) <= kills
    && DiskSound(store, replied, kills) && OrEmpty(store.qas) == m.qas
    && (store.answers == Some(m.answers) || (m.answers == [] && m.qas == []))
  }

  /** The queries recorded after the first i: those from before, and new ones from among the i. */
  ghost predicate RecordedSoFar(queries: seq<nat>, i: nat, processed: seq<nat>, qids: seq<nat>)
    requires i <= |queries|
  {
    && (forall q :: q in qids ==> q in processed || q in queries[..i])
    && (NoRepeats(queries) && NoRepeats(processed) ==> NoRepeats(qids))
  }

  lemma OneMore(replied: Replies, m: Memory, qid: nat, text: Text)
    requires Sound(replied, m.answers, m.qas) && (qid, text) in replied
    ensures Sound(replied, m.answers + [Answer(|m.answers| + 1, text)], m.qas + [Pair(qid, |m.answers| + 1)])
    ensures Sound(replied, m.answers + [Answer(|m.answers| + 1, text)], m.qas)
    ensures Qids(m.qas + [Pair(qid, |m.answers| + 1)]) == Qids(m.qas) + [qid]
  {
  }

  lemma LoadedInStep(store: Store, replied: Replies, kills: nat)
    requires DiskSound(store, replied, kills)
    ensures Loaded(store).1 == OrEmpty(store.qas)
    ensures InStep(store, replied, Memory(Loaded(store).0, Loaded(store).1), kills)
  {
    var qas := OrEmpty(store.qas);
    if qas != [] {
      assert 1 <= qas[0].aid <= |OrEmpty(store.answers)|;
    }
  }

  /** With every query answered, exactly the new ones among the first i have been added. */
  ghost predicate GotTo(queries: seq<nat>, i: nat, processed: seq<nat>, qids: seq<nat>, answered: bool)
    requires i <= |queries|
  {
    && RecordedSoFar(queries, i, processed, qids)
    && (answered ==> qids == processed + Unrecorded(queries[..i], processed))
  }

  lemma NextRecorded(queries: seq<nat>, i: nat, processed: seq<nat>, qids: seq<nat>, answered: bool)
    requires i < |queries| && GotTo(queries, i, processed, qids, answered)
    ensures queries[i] in processed || !answered ==> GotTo(queries, i + 1, processed, qids, answered)
    ensures queries[i] !in processed ==> GotTo(queries, i + 1, processed, qids + [queries[i]], answered)
    ensures RecordedSoFar(queries, i + 1, processed, qids)
  {
    UnrecordedSnoc(queries, i, processed);
    assert queries[..i + 1] == queries[..i] + [queries[i]];
    if NoRepeats(queries) && NoRepeats(processed) && queries[i] !in processed {
      assert queries[i] !in queries[..i];
      assert queries[i] !in qids;
    }
  }

  /** A query has been answered: append, save, go on unless killed. */
  method Record(store: Store, m: Memory, qid: nat, text: Text, script: Script, saves: nat,
                ghost replied: Replies, ghost kills: nat)
    returns (m': Memory, killed: bool, made: nat)
    requires InStep(store, replied, m, kills) && (qid, text) in replied
    modifies store
    ensures !killed ==> InStep(store, replied, m', kills)
    ensures killed ==>
              DiskSound(store, replied, kills + 1) && store.qas == old(store.qas) && m.answers <= OrEmpty(store.answers)
    ensures killed == (script.saves < saves + 2) && (!killed ==> made == saves + 2)
    ensures m.answers <= m'.answers && m.qas <= m'.qas && Qids(m'.qas) == Qids(m.qas) + [qid]
  {
    OneMore(replied, m, qid, text);
    var aid := |m.answers| + 1;
    m' := Memory(m.answers + [Answer(aid, text)], m.qas + [Pair(qid, aid)]);
    killed, made := Save(store, m'.answers, m'.qas, script, saves);
  }

  /** A query could not be answered: the state so far is saved all the same. */
  method SaveAgain(store: Store, m: Memory, script: Script, saves: nat, ghost replied: Replies, ghost kills: nat)
    returns (killed: bool, made: nat)
    requires InStep(store, replied, m, kills)
    modifies store
    ensures !killed ==> InStep(store, replied, m, kills)
    ensures killed ==>
              DiskSound(store, replied, kills + 1) && store.qas == old(store.qas) && m.answers <= OrEmpty(store.answers)
    ensures killed == (script.saves < saves + 2) && (!killed ==> made == saves + 2)
  {
    killed, made := Save(store, m.answers, m.qas, script, saves);
  }

  /** The body of the loop for a query that is not recorded: ask, and save what came of it. */
  method Answered(store: Store, m: Memory, qid: nat, script: Script, calls: nat, saves: nat,
                  ghost replied: Replies, ghost kills: nat, ghost queries: seq<nat>, ghost i: nat,
                  ghost processed: seq<nat>)
    returns (m': Memory, killed: bool, called: nat, made: nat)
    requires InStep(store, replied, m, kills) && RepliesWithin(script, replied)
    requires i < |queries| && queries[i] == qid && qid !in processed
    requires GotTo(queries, i, processed, Qids(m.qas), AlwaysAnswered(script))
    modifies store
    ensures !killed ==> InStep(store, replied, m', kills)
    ensures killed ==>
              DiskSound(store, replied, kills + 1) && store.qas == old(store.qas) && m.answers <= OrEmpty(store.answers)
    ensures (killed ==> script.saves < saves + 2) && (!killed ==> saves <= made <= saves + 2)
    ensures m.answers <= m'.answers && m.qas <= m'.qas
    ensures !killed ==> GotTo(queries, i + 1, processed, Qids(m'.qas), AlwaysAnswered(script))
    ensures killed ==> RecordedSoFar(queries, |queries|, processed, Qids(m.qas))
  {
    NextRecorded(queries, i, processed, Qids(m.qas), AlwaysAnswered(script));
    RecordedByTheEnd(queries, i + 1, processed, Qids(m.qas));
    var reply: Option<Text>;
    reply, called := Ask(script, qid, calls);
    m', killed, made := m, false, saves;
    if reply.Some? {
      m', killed, made := Record(store, m, qid, reply.value, script, saves, replied, kills);
    } else if script.maxRetries >= 0 {
      killed, made := SaveAgain(store, m, script, saves, replied, kills);
    }
  }

  /** A run that loaded m0, after i queries. */
  ghost predicate Midway(store: Store, replied: Replies, kills: nat, m0: Memory, m: Memory, queries: seq<nat>, i: nat,
                         script: Script, saves: nat, asked: seq<nat>)
    reads store
    requires i <= |queries|
  {
    && InStep(store, replied, m, kills) && m0.answers <= m.answers && m0.qas <= m.qas && saves <= 2 * i
    && (forall q :: q in asked ==> q in queries && q !in Qids(m0.qas))
    && GotTo(queries, i, Qids(m0.qas), Qids(m.qas), AlwaysAnswered(script))
  }

  /** What a run that loaded m0 leaves behind. */
  ghost predicate Ended(store: Store, replied: Replies, kills: nat, m0: Memory, queries: seq<nat>, script: Script,
                        asked: seq<nat>, killed: bool)
    reads store
  {
    && DiskSound(store, replied, if killed then kills + 1 else kills)
    && m0.answers <= OrEmpty(store.answers) && m0.qas <= OrEmpty(store.qas)
    && (forall q :: q in asked ==> q in queries && q !in Qids(m0.qas))
    && RecordedSoFar(queries, |queries|, Qids(m0.qas), Qids(OrEmpty(store.qas)))
    && (killed ==> script.saves < 2 * |queries|)
    && (!killed && AlwaysAnswered(script) ==>
          Qids(OrEmpty(store.qas)) == Qids(m0.qas) + Unrecorded(queries, Qids(m0.qas)))
  }

  /** The body of the loop: a recorded query is passed over, another one asked. */
  method Visit(store: Store, m: Memory, queries: seq<nat>, i: nat, processed: seq<nat>, script: Script, calls: nat,
               saves: nat,
               asked: seq<nat>, ghost replied: Replies, ghost kills: nat, ghost m0: Memory)
    returns (m': Memory, killed: bool, called: nat, made: nat, asked': seq<nat>)
    requires i < |queries| && processed == Qids(m0.qas) && RepliesWithin(script, replied)
    requires Midway(store, replied, kills, m0, m, queries, i, script, saves, asked)
    modifies store
    ensures if killed then Ended(store, replied, kills, m0, queries, script, asked', true)
            else Midway(store, replied, kills, m0, m', queries, i + 1, script, made, asked')
  {
    if queries[i] in processed {
      NextRecorded(queries, i, processed, Qids(m.qas), AlwaysAnswered(script));
      return m, false, calls, saves, asked;
    }
    m', killed, called, made := Answered(store, m, queries[i], script, calls, saves, replied, kills, queries, i,
                                         processed);
    asked' := asked + [queries[i]];
  }

  /**
   * One run. The files stay sound, with at most one orphan more when it is killed. Recorded pairs
   * and the answers of a resumed store are kept, and no recorded query is asked. A run that may
   * make two saves for each query is not killed.
   */
  method GenerateAnswers(store: Store, queries: seq<nat>, script: Script, ghost replied: Replies, ghost kills: nat)
    returns (killed: bool, asked: seq<nat>)
    requires DiskSound(store, replied, kills) && RepliesWithin(script, replied)
    modifies store
    ensures DiskSound(store, replied, if killed then kills + 1 else kills)
    ensures old(Loaded(store).0) <= OrEmpty(store.answers) && old(OrEmpty(store.qas)) <= OrEmpty(store.qas)
    ensures forall q :: q in asked ==> q in queries && q !in Qids(old(OrEmpty(store.qas)))
    ensures RecordedSoFar(queries, |queries|, Qids(old(OrEmpty(store.qas))), Qids(OrEmpty(store.qas)))
    ensures killed ==> script.saves < 2 * |queries|
    ensures !killed && AlwaysAnswered(script) ==>
              Qids(OrEmpty(store.qas))
              == Qids(old(OrEmpty(store.qas))) + Unrecorded(queries, Qids(old(OrEmpty(store.qas))))
  {
    LoadedInStep(store, replied, kills);
    var m := Memory(Loaded(store).0, Loaded(store).1);
    ghost var m0 := m;
    var processed := Qids(m.qas);
    var calls: nat, saves: nat := 0, 0;
    killed, asked := false, [];
    assert Qids(m.qas) == processed + [];
    for i := 0 to |queries|
      invariant !killed && Midway(store, replied, kills, m0, m, queries, i, script, saves, asked)
    {
      m, killed, calls, saves, asked := Visit(store, m, queries, i, processed, script, calls, saves, asked, replied,
                                              kills, m0);
      if killed {
        return;
      }
    }
    AllVisited(store, replied, kills, m0, m, queries, script, saves, asked);
  }

  lemma AllVisited(store: Store, replied: Replies, kills: nat, m0: Memory, m: Memory, queries: seq<nat>,
                   script: Script, saves: nat,
                   asked: seq<nat>)
    requires Midway(store, replied, kills, m0, m, queries, |queries|, script, saves, asked)
    ensures Ended(store, replied, kills, m0, queries, script, asked, false)
  {
    assert queries[..|queries|] == queries;
  }

  lemma RecordedByTheEnd(queries: seq<nat>, i: nat, processed: seq<nat>, qids: seq<nat>)
    requires i <= |queries| && RecordedSoFar(queries, i, processed, qids)
    ensures RecordedSoFar(queries, |queries|, processed, qids)
  {
    assert forall q :: q in queries[..i] ==> q in queries[..|queries|];
  }

  // ---- Any number of runs ----

  /** The API gave this reply to this query in one of the runs. */
  ghost predicate WasReplied(scripts: seq<Script>, qid: nat, text: Text) {
    exists r, n: nat :: 0 <= r < |scripts| && scripts[r].replies(qid, n) == Some(text)
  }

  /**
   * From an empty output directory, any number of runs, each killed between any two saves or not:
   * answer ids are 1..n, each recorded query is recorded once and has an answer of its own, which
   * is a reply to it, and there are no more orphan answers than killed runs.
   */
  method Campaign(queries: seq<nat>, scripts: seq<Script>) returns (store: Store, kills: nat)
    requires NoRepeats(queries)
    ensures kills <= |scripts|
    ensures var answers, qas := OrEmpty(store.answers), OrEmpty(store.qas);
            && (forall i :: 0 <= i < |answers| ==> answers[i].id == i + 1)
            && NoRepeats(Qids(qas)) && (forall q :: q in Qids(qas) ==> q in queries)
            && (forall i :: 0 <= i < |qas| ==> 1 <= qas[i].aid <= |answers|)
            && (forall i, j :: 0 <= i < j < |qas| ==> qas[i].aid != qas[j].aid)
            && (forall i :: 0 <= i < |qas| ==> WasReplied(scripts, qas[i].qid, answers[qas[i].aid - 1].text))
            && |qas| <= |answers| <= |qas| + kills
  {
    store := new Store();
    kills := 0;
    ghost var replied: Replies := iset q: (nat, Text) | WasReplied(scripts, q.0, q.1);
    for r := 0 to |scripts|
      invariant DiskSound(store, replied, kills) && kills <= r && fresh(store)
      invariant NoRepeats(Qids(OrEmpty(store.qas))) && forall q :: q in Qids(OrEmpty(store.qas)) ==> q in queries
    {
      var killed, _ := GenerateAnswers(store, queries, scripts[r], replied, kills);
      kills := if killed then kills + 1 else kills;
      assert queries[..|queries|] == queries;
    }
    PairsFitAnswers(OrEmpty(store.answers), OrEmpty(store.qas));
  }

  /** Distinct answers for distinct pairs: there are at least as many answers as pairs. */
  lemma {:induction false} PairsFitAnswers(answers: seq<Answer>, qas: seq<Pair>)
    requires Matched(answers, qas)
    ensures |qas| <= |answers|
  {
    AidsGrow(answers, qas, |qas|);
  }

  lemma {:induction false} AidsGrow(answers: seq<Answer>, qas: seq<Pair>, n: nat)
    requires Matched(answers, qas) && n <= |qas|
    ensures n > 0 ==> qas[n - 1].aid >= n
  {
    if n > 0 {
      AidsGrow(answers, qas, n - 1);
    }
  }

  /** A query that occurs twice was recorded before. */
  ghost predicate OnlyRecordedRepeat(queries: seq<nat>, recorded: seq<nat>) {
    forall i, j :: 0 <= i < j < |queries| && queries[i] == queries[j] ==> queries[i] in recorded
  }

  /**
   * Why the query ids have to be distinct, exactly: when every query is answered, the recorded ids
   * are free of repeats if and only if no unrecorded query occurs twice.
   */
  lemma RepeatsExactly(queries: seq<nat>, recorded: seq<nat>)
    requires NoRepeats(recorded)
    ensures NoRepeats(recorded + Unrecorded(queries, recorded)) <==> OnlyRecordedRepeat(queries, recorded)
  {
    UnrecordedMembers(queries, recorded);
    UnrecordedRepeats(queries, recorded);
    var added := Unrecorded(queries, recorded);
    var all := recorded + added;
    if NoRepeats(added) {
      forall i, j | 0 <= i < j < |all|
        ensures all[i] != all[j]
      {
        assert i < |recorded| <= j ==> all[j] in added;
      }
    }
    if NoRepeats(all) {
      forall i, j | 0 <= i < j < |added|
        ensures added[i] != added[j]
      {
        assert all[|recorded| + i] != all[|recorded| + j];
      }
    }
  }

  lemma {:induction false} UnrecordedMembers(queries: seq<nat>, recorded: seq<nat>)
    ensures forall q :: q in Unrecorded(queries, recorded) <==> q in queries && q !in recorded
  {
    if queries != [] {
      UnrecordedMembers(queries[1..], recorded);
      assert forall q :: q in queries <==> q == queries[0] || q in queries[1..];
    }
  }

  lemma {:induction false} UnrecordedRepeats(queries: seq<nat>, recorded: seq<nat>)
    ensures NoRepeats(Unrecorded(queries, recorded)) <==> OnlyRecordedRepeat(queries, recorded)
  {
    if queries != [] {
      var q, rest := queries[0], queries[1..];
      UnrecordedRepeats(rest, recorded);
      UnrecordedMembers(rest, recorded);
      RecordedRepeatOfCons(queries, recorded);
      if q in recorded {
        assert Unrecorded(queries, recorded) == Unrecorded(rest, recorded);
      } else {
        NoRepeatsOfCons(q, Unrecorded(rest, recorded));
      }
    }
  }

  lemma NoRepeatsOfCons(q: nat, rest: seq<nat>)
    ensures NoRepeats([q] + rest) <==> NoRepeats(rest) && q !in rest
  {
    var all := [q] + rest;
    if NoRepeats(all) {
      forall i, j | 0 <= i < j < |rest| ensures rest[i] != rest[j] {
        assert all[i + 1] != all[j + 1];
      }
      forall j | 0 <= j < |rest| ensures rest[j] != q {
        assert all[0] != all[j + 1];
      }
    }
  }

  lemma RecordedRepeatOfCons(queries: seq<nat>, recorded: seq<nat>)
    requires queries != []
    ensures OnlyRecordedRepeat(queries, recorded)
       <==> OnlyRecordedRepeat(queries[1..], recorded) && (queries[0] in queries[1..] ==> queries[0] in recorded)
  {
    var rest := queries[1..];
    if OnlyRecordedRepeat(queries, recorded) {
      forall i, j | 0 <= i < j < |rest| && rest[i] == rest[j] ensures rest[i] in recorded {
        assert queries[i + 1] == queries[j + 1];
      }
    }
    if OnlyRecordedRepeat(rest, recorded) && (queries[0] in rest ==> queries[0] in recorded) {
      forall i, j | 0 <= i < j < |queries| && queries[i] == queries[j] ensures queries[i] in recorded {
        if i > 0 {
          assert rest[i - 1] == rest[j - 1];
        } else {
          assert rest[j - 1] in rest;
        }
      }
    }
  }
}
