/**
 * Create-exclusive key files (cmd/desktop/signing_key.go): any number of launches, at once or one
 * after the other, over one directory. `signing.key` and `jwt.key` each follow this protocol.
 */
module SigningKey {
  import opened Basics

  /** 32 random bytes in unpadded URL base64. */
  const KEY_LENGTH: nat := 43

  /** Shorter contents are refused. */
  const MIN_LENGTH: nat := 32

  datatype Step =
    | ReadFile
    | Create(ok: bool)
    | Write(upTo: nat)
    | WriteFails
    | CloseFile(ok: bool)
    | ReadAgain

  /** Where a launch is; `Ended` holds the key it goes on with, if any. */
  datatype At = Begin | Missing | Writing(written: nat) | Raced | Ended(key: Option<Text>)

  datatype Launch = Launch(key: Text, at: At)

  /** The file is absent, or has the contents written so far. */
  datatype State = State(file: Option<Text>, launches: seq<Launch>)

  ghost predicate Initial(s: State) {
    && s.file == None
    && forall i :: 0 <= i < |s.launches| ==> s.launches[i].at == Begin && |s.launches[i].key| == KEY_LENGTH
  }

  /** The key a launch takes from file contents. */
  function Accept(content: Text): Option<Text> {
    if |content| < MIN_LENGTH then None else Some(content)
  }

  /** A write call ends at one of these lengths, or at the end of the key. */
  ghost predicate Enabled(cuts: iset<nat>, s: State, i: nat, step: Step) {
    i < |s.launches| &&
    var l := s.launches[i];
    match step
    case ReadFile => l.at == Begin
    case Create(_) => l.at == Missing
    case Write(upTo) =>
      && l.at.Writing? && l.at.written < upTo <= |l.key|
      && (upTo in cuts || upTo == |l.key|) && s.file.Some?
    case WriteFails => l.at.Writing?
    case CloseFile(_) => l.at.Writing? && l.at.written == |l.key|
    case ReadAgain => l.at == Raced
  }

  function Goes(s: State, i: nat, at: At): State
    requires i < |s.launches|
  {
    s.(launches := s.launches[i := s.launches[i].(at := at)])
  }

  ghost function Apply(cuts: iset<nat>, s: State, i: nat, step: Step): State
    requires Enabled(cuts, s, i, step)
  {
    var l := s.launches[i];
    match step
    case ReadFile => if s.file.None? then Goes(s, i, Missing) else Goes(s, i, Ended(Accept(s.file.value)))
    case Create(ok) =>
      if s.file.Some? then Goes(s, i, Raced)
      else if !ok then Goes(s, i, Ended(None))
      else Goes(s, i, Writing(0)).(file := Some([]))
    case Write(upTo) => Goes(s, i, Writing(upTo)).(file := Some(s.file.value + l.key[l.at.written..upTo]))
    case WriteFails => Goes(s, i, Ended(None))
    case CloseFile(ok) => Goes(s, i, Ended(if ok then Accept(l.key) else None))
    case ReadAgain => if s.file.None? then Goes(s, i, Ended(None)) else Goes(s, i, Ended(Accept(s.file.value)))
  }

  datatype Move = Move(launch: nat, step: Step)

  ghost predicate Runs(cuts: iset<nat>, s: State, moves: seq<Move>, s': State)
    decreases |moves|
  {
    if moves == [] then s == s'
    else
      && Enabled(cuts, s, moves[0].launch, moves[0].step)
      && Runs(cuts, Apply(cuts, s, moves[0].launch, moves[0].step), moves[1..], s')
  }

  /** The key of a launch that has succeeded. */
  function KeyOf(s: State, i: nat): Option<Text>
    requires i < |s.launches|
  {
    if s.launches[i].at.Ended? then s.launches[i].at.key else None
  }

  /** All launches that have succeeded have the same key. */
  ghost predicate Agreement(s: State) {
    forall i, j :: 0 <= i < |s.launches| && 0 <= j < |s.launches| && KeyOf(s, i).Some? && KeyOf(s, j).Some? ==>
      KeyOf(s, i) == KeyOf(s, j)
  }

  // ---- Atomic enough writes ----

  /** No write call ends at a length that would be accepted but is not the whole key. */
  ghost predicate SafeCuts(cuts: iset<nat>) {
    forall c :: c in cuts ==> c < MIN_LENGTH || c >= KEY_LENGTH
  }

  /** The file holds the beginning of its creator's key: less than is accepted, or all of it. */
  predicate FileOk(s: State, creator: nat) {
    s.file.Some? ==>
      && creator < |s.launches|
      && s.file.value <= s.launches[creator].key
      && (|s.file.value| < MIN_LENGTH || s.file.value == s.launches[creator].key)
  }

  predicate LaunchOk(s: State, creator: nat, i: nat)
    requires i < |s.launches|
  {
    && |s.launches[i].key| == KEY_LENGTH
    && match s.launches[i].at
       case Writing(written) =>
         && i == creator && s.file.Some? && written <= KEY_LENGTH
         && s.file.value == s.launches[i].key[..written]
       case Raced => s.file.Some?
       case Ended(Some(key)) => s.file == Some(key) && |key| >= MIN_LENGTH
       case _ => true
  }

  ghost predicate Inv(s: State, creator: nat) {
    FileOk(s, creator) && forall i :: 0 <= i < |s.launches| ==> LaunchOk(s, creator, i)
  }

  /** The launch that created the file, once there is one. */
  function CreatorAfter(s: State, creator: nat, i: nat, step: Step): nat {
    if step.Create? && s.file.None? then i else creator
  }

  lemma StepKeepsInv(cuts: iset<nat>, s: State, creator: nat, i: nat, step: Step)
    requires SafeCuts(cuts) && Inv(s, creator) && Enabled(cuts, s, i, step)
    ensures Inv(Apply(cuts, s, i, step), CreatorAfter(s, creator, i, step))
    ensures s.file.Some? ==> Apply(cuts, s, i, step).file.Some? && s.file.value <= Apply(cuts, s, i, step).file.value
    ensures s.file.Some? && |s.file.value| >= MIN_LENGTH ==> Apply(cuts, s, i, step).file == s.file
  {
    assert LaunchOk(s, creator, i);
    var s', c := Apply(cuts, s, i, step), CreatorAfter(s, creator, i, step);
    var l := s.launches[i];
    if step.Write? {
      assert l.key[..l.at.written] + l.key[l.at.written..step.upTo] == l.key[..step.upTo];
      assert l.key[..KEY_LENGTH] == l.key;
    }
    forall j | 0 <= j < |s'.launches|
      ensures LaunchOk(s', c, j)
    {
      assert LaunchOk(s, creator, j);
    }
  }

  lemma {:induction false} RunsKeepInv(cuts: iset<nat>, s: State, creator: nat, moves: seq<Move>, s': State)
    returns (c: nat)
    requires SafeCuts(cuts) && Inv(s, creator) && Runs(cuts, s, moves, s')
    ensures Inv(s', c)
    ensures s.file.Some? && |s.file.value| >= MIN_LENGTH ==> s'.file == s.file
    decreases |moves|
  {
    if moves == [] {
      return creator;
    }
    var m := moves[0];
    StepKeepsInv(cuts, s, creator, m.launch, m.step);
    c := RunsKeepInv(cuts, Apply(cuts, s, m.launch, m.step), CreatorAfter(s, creator, m.launch, m.step), moves[1..],
                     s');
  }

  /**
   * Every successful launch uses the contents of the key file, so all use the same key, and a
   * complete key file is never replaced.
   */
  lemma KeysAgree(cuts: iset<nat>, s0: State, moves: seq<Move>, s: State, more: seq<Move>, s': State)
    requires SafeCuts(cuts) && Initial(s0) && Runs(cuts, s0, moves, s) && Runs(cuts, s, more, s')
    ensures Agreement(s)
    ensures forall i :: 0 <= i < |s.launches| && KeyOf(s, i).Some? ==> s.file == KeyOf(s, i)
    ensures s.file.Some? && |s.file.value| >= MIN_LENGTH ==> s'.file == s.file
  {
    forall i | 0 <= i < |s0.launches| ensures LaunchOk(s0, 0, i) {}
    var c := RunsKeepInv(cuts, s0, 0, moves, s);
    var d := RunsKeepInv(cuts, s, c, more, s');
    forall i | 0 <= i < |s.launches| && KeyOf(s, i).Some?
      ensures s.file == KeyOf(s, i)
    {
      assert LaunchOk(s, c, i);
    }
  }

  /** A launch that has ended stays as it is. */
  lemma {:induction false} EndedStays(cuts: iset<nat>, s: State, i: nat, moves: seq<Move>, s': State)
    requires Runs(cuts, s, moves, s') && i < |s.launches| && s.launches[i].at.Ended?
    ensures i < |s'.launches| && s'.launches[i] == s.launches[i]
    decreases |moves|
  {
    if moves != [] {
      EndedStays(cuts, Apply(cuts, s, moves[0].launch, moves[0].step), i, moves[1..], s');
    }
  }

  /**
   * A launch that reads a file its creator has not finished, at the first read or after losing the
   * race to create it, fails for good rather than use another key, and leaves the file alone.
   */
  lemma UnfinishedFileIsRefused(cuts: iset<nat>, s: State, i: nat, step: Step, moves: seq<Move>, s': State)
    requires s.file.Some? && |s.file.value| < MIN_LENGTH && step in {ReadFile, ReadAgain} && Enabled(cuts, s, i, step)
    requires Runs(cuts, Apply(cuts, s, i, step), moves, s')
    ensures Apply(cuts, s, i, step).file == s.file
    ensures i < |s'.launches| && s'.launches[i].at == Ended(None) && KeyOf(s', i) == None
  {
    EndedStays(cuts, Apply(cuts, s, i, step), i, moves, s');
  }

  // ---- The exact condition ----

  /** Two launches: the second reads while the first has written c units of its key. */
  lemma UnsafeCutBreaksAgreement(cuts: iset<nat>, c: nat, key: Text) returns (s0: State, moves: seq<Move>, s: State)
    requires c in cuts && MIN_LENGTH <= c < KEY_LENGTH && |key| == KEY_LENGTH
    ensures Initial(s0) && Runs(cuts, s0, moves, s) && !Agreement(s)
  {
    var s3 := State(Some(key[..c]), [Launch(key, Writing(c)), Launch(key, Begin)]);
    moves, s := ReadTooEarly(cuts, c, key, s3);
    s0 := State(None, [Launch(key, Begin), Launch(key, Begin)]);
    var s1 := Apply(cuts, s0, 0, ReadFile);
    var s2 := Apply(cuts, s1, 0, Create(true));
    assert [] + key[0..c] == key[..c];
    assert Apply(cuts, s2, 0, Write(c)) == s3;
    moves := OneMove(cuts, s2, Move(0, Write(c)), moves, s);
    moves := OneMove(cuts, s1, Move(0, Create(true)), moves, s);
    moves := OneMove(cuts, s0, Move(0, ReadFile), moves, s);
  }

  /** The second launch reads while the first is writing. */
  lemma ReadTooEarly(cuts: iset<nat>, c: nat, key: Text, s: State) returns (moves: seq<Move>, s': State)
    requires MIN_LENGTH <= c < KEY_LENGTH == |key|
    requires s == State(Some(key[..c]), [Launch(key, Writing(c)), Launch(key, Begin)])
    ensures Runs(cuts, s, moves, s') && !Agreement(s')
  {
    var s4 := Apply(cuts, s, 1, ReadFile);
    var s5 := Apply(cuts, s4, 0, Write(KEY_LENGTH));
    s' := Apply(cuts, s5, 0, CloseFile(true));
    assert KeyOf(s', 1) == Some(key[..c]) && KeyOf(s', 0) == Some(key) && |key[..c]| != |key|;
    assert Runs(cuts, s', [], s');
    moves := OneMove(cuts, s5, Move(0, CloseFile(true)), [], s');
    moves := OneMove(cuts, s4, Move(0, Write(KEY_LENGTH)), moves, s');
    moves := OneMove(cuts, s, Move(1, ReadFile), moves, s');
  }

  lemma OneMove(cuts: iset<nat>, s: State, m: Move, rest: seq<Move>, s': State) returns (moves: seq<Move>)
    requires Enabled(cuts, s, m.launch, m.step) && Runs(cuts, Apply(cuts, s, m.launch, m.step), rest, s')
    ensures Runs(cuts, s, moves, s')
  {
    moves := [m] + rest;
    assert moves[1..] == rest;
  }

  ghost predicate AlwaysAgrees(cuts: iset<nat>) {
    forall s0, moves, s :: Initial(s0) && Runs(cuts, s0, moves, s) ==> Agreement(s)
  }

  /**
   * Launches agree on the key in every run if and only if no write call can end between the
   * shortest accepted length and the full one; an atomic write is the case without cuts.
   */
  lemma AgreementExactly(cuts: iset<nat>)
    ensures AlwaysAgrees(cuts) <==> SafeCuts(cuts)
  {
    if SafeCuts(cuts) {
      forall s0, moves, s | Initial(s0) && Runs(cuts, s0, moves, s)
        ensures Agreement(s)
      {
        KeysAgree(cuts, s0, moves, s, [], s);
      }
    } else {
      var c :| c in cuts && MIN_LENGTH <= c < KEY_LENGTH;
      var s0, moves, s := UnsafeCutBreaksAgreement(cuts, c, seq(KEY_LENGTH, _ => 0x41));
    }
  }
}
