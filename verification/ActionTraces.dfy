/** Call traces over one call's state, and the greedy cover of ordered action tuples by valid traces. */
module ActionTraces {
  import opened Prelude
  import opened Subsequences

  datatype Action = Dtmf | Hold | Resume | Reinvite | Failure | Recover | Hangup | Unsupported(name: string)

  type Trace = seq<Action>

  // ----- what a valid call is

  function Count(s: Trace, a: Action): nat {
    if s == [] then 0 else (if s[|s| - 1] == a then 1 else 0) + Count(s[..|s| - 1], a)
  }

  /** Whether the call is on hold after the given actions. */
  function HoldsOpen(s: Trace): int {
    Count(s, Hold) - Count(s, Resume)
  }

  /**
   One hangup, at the end. Before it: a recover exactly after each failure, and holds and resumes
   that alternate starting with a hold.
   */
  ghost predicate ValidCall(s: Trace) {
    && s != [] && s[|s| - 1] == Hangup
    && var body := s[..|s| - 1];
       && Hangup !in body
       && (forall a :: a in body ==> !a.Unsupported?)
       && (forall i :: 0 <= i < |body| ==> RecoversRight(body, i))
       && (forall i :: 0 <= i <= |body| ==> 0 <= HoldsOpen(body[..i]) <= 1)
  }

  // ----- the two recognizers

  /** A recover stands exactly after a failure. */
  ghost predicate RecoversRight(body: Trace, i: nat)
    requires i < |body|
  {
    body[i] == Recover <==> i > 0 && body[i - 1] == Failure
  }

  /** What both recognizers know after reading a prefix without objecting. */
  ghost predicate PrefixOk(body: Trace, n: nat, held: bool, failed: bool)
    requires n <= |body|
  {
    && (forall i :: 0 <= i < n ==> body[i] != Hangup && !body[i].Unsupported?)
    && (forall i :: 0 <= i < n ==> RecoversRight(body, i))
    && (forall i :: 0 <= i <= n ==> 0 <= HoldsOpen(body[..i]) <= 1)
    && (held <==> HoldsOpen(body[..n]) == 1)
    && (failed <==> n > 0 && body[n - 1] == Failure)
  }

  lemma HoldsOpenStep(body: Trace, n: nat)
    requires n < |body|
    ensures HoldsOpen(body[..n + 1]) ==
            HoldsOpen(body[..n]) + (if body[n] == Hold then 1 else 0) - (if body[n] == Resume then 1 else 0)
  {
    assert body[..n + 1][..n] == body[..n];
  }

  /** The moves a call allows: recover exactly when failed, hold only when not held, resume only when held. */
  predicate MoveAllowed(held: bool, failed: bool, action: Action) {
    && action != Hangup && !action.Unsupported?
    && (action == Recover <==> failed)
    && (action == Hold ==> !held)
    && (action == Resume ==> held)
  }

  lemma PrefixStep(body: Trace, n: nat, held: bool, failed: bool)
    requires n < |body| && PrefixOk(body, n, held, failed) && MoveAllowed(held, failed, body[n])
    ensures PrefixOk(body, n + 1, body[n] == Hold || (held && body[n] != Resume), body[n] == Failure)
  {
    HoldsOpenStep(body, n);
  }

  lemma PrefixStuck(sequence: Trace, n: nat, held: bool, failed: bool)
    requires n < |sequence| - 1 && PrefixOk(sequence[..|sequence| - 1], n, held, failed)
    requires !MoveAllowed(held, failed, sequence[n])
    ensures !ValidCall(sequence)
  {
    var body := sequence[..|sequence| - 1];
    HoldsOpenStep(body, n);
    assert body[n] == sequence[n] && body[n] in body;
    assert RecoversRight(body, n) <==> (body[n] == Recover <==> failed);
    if body[n] == Hold || body[n] == Resume {
      assert HoldsOpen(body[..n + 1]) in {-1, 0, 1, 2};
    }
  }

  lemma PrefixComplete(sequence: Trace, held: bool, failed: bool)
    requires sequence != [] && sequence[|sequence| - 1] == Hangup
    requires PrefixOk(sequence[..|sequence| - 1], |sequence| - 1, held, failed)
    ensures ValidCall(sequence)
  {
  }

  /** The generator's recognizer. */
  method ValidActionSequence(sequence: Trace) returns (valid: bool)
    ensures valid <==> ValidCall(sequence)
  {
    if sequence == [] || sequence[|sequence| - 1] != Hangup || Hangup in sequence[..|sequence| - 1] {
      return false;
    }
    hide ValidCall, PrefixOk;
    ghost var body := sequence[..|sequence| - 1];
    var held, failed := false, false;
    StartOk(body);
    assert forall k :: 0 <= k < |body| ==> sequence[k] == body[k] && body[k] != Hangup;
    for i := 0 to |sequence|
      invariant PrefixOk(body, Min(i, |body|), held, failed)
    {
      var action := sequence[i];
      if action == Hangup {
        continue;
      }
      assert i < |body| && body[i] == action;
      if MoveAllowed(held, failed, action) {
        PrefixStep(body, i, held, failed);
      } else {
        PrefixStuck(sequence, i, held, failed);
      }
      if failed {
        if action != Recover {
          return false;
        }
        failed := false;
        continue;
      }
      if action == Hold {
        if held {
          return false;
        }
        held := true;
      } else if action == Resume {
        if !held {
          return false;
        }
        held := false;
      } else if action == Dtmf || action == Reinvite {
      } else if action == Failure {
        failed := true;
      } else if action == Recover {
        return false;
      } else {
        return false;
      }
    }
    PrefixComplete(sequence, held, failed);
    valid := true;
  }

  lemma StartOk(body: Trace)
    ensures PrefixOk(body, 0, false, false)
  {
  }

  /** The campaign compiler's own check of a generated case's actions; it refuses the empty list. */
  method CheckGeneratedActions(actions: Trace) returns (accepted: bool)
    ensures accepted <==> ValidCall(actions)
  {
    if actions == [] {
      return false;
    }
    if exists i :: 0 <= i < |actions| && actions[i].Unsupported? {
      ghost var body := actions[..|actions| - 1];
      ghost var i :| 0 <= i < |actions| && actions[i].Unsupported?;
      assert i < |body| ==> body[i] in body;
      return false;
    }
    if actions[|actions| - 1] != Hangup || Hangup in actions[..|actions| - 1] {
      return false;
    }
    hide ValidCall, PrefixOk;
    ghost var body := actions[..|actions| - 1];
    var held, failed := false, false;
    StartOk(body);
    for i := 0 to |actions| - 1
      invariant PrefixOk(body, i, held, failed)
    {
      var action := actions[i];
      assert body[i] == action && body[i] in body;
      if MoveAllowed(held, failed, action) {
        PrefixStep(body, i, held, failed);
      } else {
        PrefixStuck(actions, i, held, failed);
      }
      if failed {
        if action != Recover {
          return false;
        }
        failed := false;
      } else if action == Hold {
        if held {
          return false;
        }
        held := true;
      } else if action == Resume {
        if !held {
          return false;
        }
        held := false;
      } else if action == Failure {
        failed := true;
      } else if action == Recover {
        return false;
      }
    }
    PrefixComplete(actions, held, failed);
    accepted := true;
  }

  // ----- candidates

  datatype SequenceError = BadMaxActions | BadStrength | DuplicateActions | UnsupportedAction | NoHangup
                         | TooManyCandidates

  const MAX_SEQUENCE_CANDIDATES: nat := 250_000

  function Repeat<T>(x: T, n: nat): (r: seq<T>)
    ensures |r| == n
    ensures forall i :: 0 <= i < n ==> r[i] == x
  {
    seq(n, i requires 0 <= i < n => x)
  }

  /** All words of length n over the alphabet. */
  function Words(alphabet: Trace, n: nat): seq<Trace> {
    Product(Repeat(alphabet, n))
  }

  lemma WordsMembers(alphabet: Trace, n: nat, w: Trace)
    ensures w in Words(alphabet, n) <==> |w| == n && forall a :: a in w ==> a in alphabet
  {
    ProductMembers(Repeat(alphabet, n), w);
    if |w| == n && forall i :: 0 <= i < |w| ==> w[i] in alphabet {
      forall a | a in w ensures a in alphabet {
        var i :| 0 <= i < |w| && w[i] == a;
      }
    }
  }

  /** A valid call over the declared actions, no longer than allowed. */
  ghost predicate Candidate(actions: Trace, maxActions: nat, s: Trace) {
    ValidCall(s) && |s| <= maxActions && forall a :: a in s ==> a in actions
  }

  function NonTerminal(actions: Trace): (r: Trace)
    ensures forall a :: a in r <==> a in actions && a != Hangup
  {
    if actions == [] then []
    else (if actions[0] == Hangup then [] else [actions[0]]) + NonTerminal(actions[1..])
  }

  lemma CandidateShape(actions: Trace, maxActions: nat, s: Trace)
    requires Candidate(actions, maxActions, s)
    ensures |s| > 0 && s == s[..|s| - 1] + [Hangup] && s[..|s| - 1] in Words(NonTerminal(actions), |s| - 1)
  {
    var body := s[..|s| - 1];
    forall a | a in body ensures a in NonTerminal(actions) {
      assert a in s;
    }
    WordsMembers(NonTerminal(actions), |s| - 1, body);
  }

  lemma CandidateBuilt(actions: Trace, maxActions: nat, prefix: Trace)
    requires Hangup in actions && prefix in Words(NonTerminal(actions), |prefix|) && |prefix| < maxActions
    requires ValidCall(prefix + [Hangup])
    ensures Candidate(actions, maxActions, prefix + [Hangup])
  {
    WordsMembers(NonTerminal(actions), |prefix|, prefix);
    forall a | a in prefix + [Hangup] ensures a in actions {
      assert a in prefix || a == Hangup;
    }
  }

  function Power(b: nat, e: nat): nat {
    if e == 0 then 1 else b * Power(b, e - 1)
  }

  /** How many words over k letters are shorter than n. */
  function ShorterWords(k: nat, n: nat): nat {
    if n == 0 then 0 else ShorterWords(k, n - 1) + Power(k, n - 1)
  }

  lemma {:induction false} WordCount(alphabet: Trace, n: nat)
    ensures |Words(alphabet, n)| == Power(|alphabet|, n)
  {
    if n > 0 {
      WordCount(alphabet, n - 1);
      assert Repeat(alphabet, n)[1..] == Repeat(alphabet, n - 1);
      SpreadSize(alphabet, Words(alphabet, n - 1));
    }
  }

  lemma {:induction false} ShorterWordsGrow(k: nat, m: nat, n: nat)
    requires m <= n
    ensures ShorterWords(k, m) <= ShorterWords(k, n)
  {
    if m < n {
      ShorterWordsGrow(k, m, n - 1);
    }
  }

  lemma {:induction false} PowerGrows(j: nat, k: nat, e: nat)
    requires j <= k
    ensures Power(j, e) <= Power(k, e)
  {
    if e > 0 {
      PowerGrows(j, k, e - 1);
      assert j * Power(j, e - 1) <= k * Power(k, e - 1) by {
        TimesGrow(j, k, Power(j, e - 1), Power(k, e - 1));
      }
    }
  }

  lemma TimesGrow(a: nat, b: nat, x: nat, y: nat)
    requires a <= b && x <= y
    ensures a * x <= b * y
  {
    assert a * x <= a * y;
  }

  lemma {:induction false} FewerLetters(j: nat, k: nat, n: nat)
    requires j <= k
    ensures ShorterWords(j, n) <= ShorterWords(k, n)
  {
    if n > 0 {
      FewerLetters(j, k, n - 1);
      PowerGrows(j, k, n - 1);
    }
  }

  lemma {:induction false} NonTerminalDistinct(actions: Trace)
    requires Distinct(actions)
    ensures Distinct(NonTerminal(actions))
  {
    if actions != [] {
      NonTerminalDistinct(actions[1..]);
      assert forall i :: 0 <= i < |actions[1..]| ==> actions[1..][i] == actions[i + 1];
      assert actions[0] !in actions[1..];
    }
  }

  /** With the supported actions and the length limit there are never too many prefixes to enumerate. */
  lemma FewPrefixes(actions: Trace, maxActions: nat)
    requires Distinct(actions) && maxActions <= 7 && forall i :: 0 <= i < |actions| ==> !actions[i].Unsupported?
    ensures ShorterWords(|NonTerminal(actions)|, maxActions) <= 55_987 < MAX_SEQUENCE_CANDIDATES
  {
    var letters := {Dtmf, Hold, Resume, Reinvite, Failure, Recover};
    assert |letters| == 6;
    var rest := NonTerminal(actions);
    forall i | 0 <= i < |rest| ensures rest[i] in letters {
      assert rest[i] in actions;
    }
    NonTerminalDistinct(actions);
    DistinctFits(rest, letters);
    FewerLetters(|rest|, 6, maxActions);
    ShorterWordsGrow(6, maxActions, 7);
    SixLetters();
  }

  lemma SixLetters()
    ensures ShorterWords(6, 7) == 55_987
  {
    assert Power(6, 1) == 6 && Power(6, 2) == 36 && Power(6, 3) == 216;
    assert Power(6, 4) == 1296 && Power(6, 5) == 7776 && Power(6, 6) == 46656;
    assert ShorterWords(6, 3) == 43;
  }

  /** Enumerate every valid trace, shortest first. */
  method EnumerateCandidates(actions: Trace, maxActions: nat) returns (r: Result<seq<Trace>, SequenceError>)
    requires Hangup in actions
    ensures r.Ok? ==> forall s :: s in r.value <==> Candidate(actions, maxActions, s)
    ensures r.Err? ==>
                r.error == TooManyCandidates
                  && ShorterWords(|NonTerminal(actions)|, maxActions) > MAX_SEQUENCE_CANDIDATES
  {
    hide Candidate, Words, HangsUpFrom, Power;
    var nonterminal := NonTerminal(actions);
    var candidates: seq<Trace> := [];
    forall s | Candidate(actions, maxActions, s) ensures 0 < |s| <= maxActions {
      CandidateLength(actions, maxActions, s);
    }
    for length := 1 to maxActions + 1
      invariant forall s :: s in candidates <==> Candidate(actions, maxActions, s) && |s| < length
      invariant |candidates| <= ShorterWords(|nonterminal|, length - 1)
    {
      WordCount(nonterminal, length - 1);
      ShorterWordsGrow(|nonterminal|, length, maxActions);
      var grown := AddValid(Words(nonterminal, length - 1), candidates);
      if grown.Err? {
        return grown;
      }
      forall s ensures s in grown.value <==> Candidate(actions, maxActions, s) && |s| <= length {
        LengthDone(actions, maxActions, length, s);
      }
      candidates := grown.value;
    }
    r := Ok(candidates);
  }

  lemma CandidateLength(actions: Trace, maxActions: nat, s: Trace)
    requires Candidate(actions, maxActions, s)
    ensures 0 < |s| <= maxActions
  {
  }

  /** A valid trace that extends one of the prefixes by hanging up. */
  ghost predicate HangsUpFrom(prefixes: seq<Trace>, s: Trace) {
    s != [] && s[..|s| - 1] in prefixes && s == s[..|s| - 1] + [Hangup] && ValidCall(s)
  }

  lemma OneMorePrefix(prefixes: seq<Trace>, p: Trace, s: Trace)
    ensures HangsUpFrom(prefixes + [p], s) <==> HangsUpFrom(prefixes, s) || (s == p + [Hangup] && ValidCall(s))
  {
  }

  method AddValid(prefixes: seq<Trace>, before: seq<Trace>) returns (r: Result<seq<Trace>, SequenceError>)
    ensures r.Ok? ==> forall s :: s in r.value <==> s in before || HangsUpFrom(prefixes, s)
    ensures r.Ok? ==> |r.value| <= |before| + |prefixes|
    ensures r.Err? ==> r.error == TooManyCandidates && |before| + |prefixes| > MAX_SEQUENCE_CANDIDATES
  {
    hide ValidCall, HangsUpFrom;
    var candidates := before;
    NoPrefixes();
    assert prefixes[..0] == [];
    for i := 0 to |prefixes|
      invariant forall s :: s in candidates <==> s in before || HangsUpFrom(prefixes[..i], s)
      invariant |candidates| <= |before| + i
    {
      var sequence := prefixes[i] + [Hangup];
      assert prefixes[..i + 1] == prefixes[..i] + [prefixes[i]];
      forall s
        ensures HangsUpFrom(prefixes[..i + 1], s) <==> HangsUpFrom(prefixes[..i], s) || (s == sequence && ValidCall(s))
      {
        OneMorePrefix(prefixes[..i], prefixes[i], s);
      }
      var valid := ValidActionSequence(sequence);
      if valid {
        candidates := candidates + [sequence];
      }
      if |candidates| > MAX_SEQUENCE_CANDIDATES {
        return Err(TooManyCandidates);
      }
    }
    assert prefixes[..|prefixes|] == prefixes;
    r := Ok(candidates);
  }

  lemma NoPrefixes()
    ensures forall s :: !HangsUpFrom([], s)
  {
  }

  lemma LengthDone(actions: Trace, maxActions: nat, length: nat, s: Trace)
    requires Hangup in actions && 1 <= length <= maxActions
    ensures Candidate(actions, maxActions, s) && |s| == length <==>
            HangsUpFrom(Words(NonTerminal(actions), length - 1), s)
  {
    hide ValidCall, Words;
    if Candidate(actions, maxActions, s) && |s| == length {
      CandidateShape(actions, maxActions, s);
    }
    if s != [] && s[..|s| - 1] in Words(NonTerminal(actions), length - 1) && s == s[..|s| - 1] + [Hangup]
       && ValidCall(s) {
      WordsMembers(NonTerminal(actions), length - 1, s[..|s| - 1]);
      CandidateBuilt(actions, maxActions, s[..|s| - 1]);
    }
  }

  // ----- how long a call can be

  /** Some actions can be repeated for ever, or enough of the others can be used once. */
  predicate LongEnough(actions: Trace, length: nat) {
    || length <= 1
    || Dtmf in actions || Reinvite in actions
    || (Hold in actions && Resume in actions) || (Failure in actions && Recover in actions)
    || length <= 1 + (if Hold in actions then 1 else 0) + (if Failure in actions then 1 else 0)
  }

  /** The repeating part of a call: one action again and again, or two in turn. */
  function Alternate(a: Action, b: Action, n: nat): (r: Trace)
    ensures |r| == n
    ensures forall i :: 0 <= i < n ==> r[i] == if i % 2 == 0 then a else b
  {
    seq(n, i requires 0 <= i < n => if i % 2 == 0 then a else b)
  }

  lemma {:induction false} AlternateHolds(a: Action, b: Action, n: nat)
    requires (a, b) in {(Dtmf, Dtmf), (Reinvite, Reinvite), (Hold, Resume), (Failure, Recover)}
    ensures HoldsOpen(Alternate(a, b, n)) == if a == Hold then n % 2 else 0
  {
    if n > 0 {
      AlternateHolds(a, b, n - 1);
      assert Alternate(a, b, n)[..n - 1] == Alternate(a, b, n - 1);
    }
  }

  lemma AlternateIsCall(a: Action, b: Action, n: nat)
    requires (a, b) in {(Dtmf, Dtmf), (Reinvite, Reinvite), (Hold, Resume), (Failure, Recover)}
    ensures ValidCall(Alternate(a, b, n) + [Hangup])
  {
    hide HoldsOpen;
    var body, call := Alternate(a, b, n), Alternate(a, b, n) + [Hangup];
    assert call[..|call| - 1] == body;
    forall i | 0 <= i <= n ensures 0 <= HoldsOpen(body[..i]) <= 1 {
      AlternateHolds(a, b, i);
      assert body[..i] == Alternate(a, b, i);
    }
  }

  lemma OnceIsCall(body: Trace)
    requires body == [] || body == [Hold] || body == [Failure] || body == [Hold, Failure]
    ensures ValidCall(body + [Hangup])
  {
    hide HoldsOpen;
    assert (body + [Hangup])[..|body|] == body;
    forall i | 0 <= i <= |body| ensures 0 <= HoldsOpen(body[..i]) <= 1 {
      HeldOnce(body, i);
    }
  }

  lemma HeldOnce(body: Trace, i: nat)
    requires i <= |body| && (body == [] || body == [Hold] || body == [Failure] || body == [Hold, Failure])
    ensures 0 <= HoldsOpen(body[..i]) <= 1
  {
    hide HoldsOpen;
    NothingHeld(body);
    if i > 0 {
      HoldsOpenStep(body, 0);
      HoldsOpenStep(body, i - 1);
    }
  }

  lemma NothingHeld(body: Trace)
    ensures HoldsOpen(body[..0]) == 0
  {
  }

  lemma LongCall(actions: Trace, length: nat) returns (call: Trace)
    requires Hangup in actions && length >= 1 && LongEnough(actions, length)
    ensures ValidCall(call) && |call| == length && forall a :: a in call ==> a in actions
  {
    hide ValidCall;
    var n := length - 1;
    if Dtmf in actions {
      AlternateIsCall(Dtmf, Dtmf, n);
      call := Alternate(Dtmf, Dtmf, n) + [Hangup];
    } else if Reinvite in actions {
      AlternateIsCall(Reinvite, Reinvite, n);
      call := Alternate(Reinvite, Reinvite, n) + [Hangup];
    } else if Hold in actions && Resume in actions {
      AlternateIsCall(Hold, Resume, n);
      call := Alternate(Hold, Resume, n) + [Hangup];
    } else if Failure in actions && Recover in actions {
      AlternateIsCall(Failure, Recover, n);
      call := Alternate(Failure, Recover, n) + [Hangup];
    } else {
      var body :=
        if n == 0 then [] else if n == 2 then [Hold, Failure] else if Hold in actions then [Hold] else [Failure];
      OnceIsCall(body);
      call := body + [Hangup];
    }
  }

  lemma ShortBody(actions: Trace, call: Trace)
    requires ValidCall(call) && forall a :: a in call ==> a in actions
    requires Dtmf !in actions && Reinvite !in actions
    requires !(Hold in actions && Resume in actions) && !(Failure in actions && Recover in actions)
    ensures |call| <= 1 + (if Hold in actions then 1 else 0) + (if Failure in actions then 1 else 0)
  {
    var body := call[..|call| - 1];
    forall i | 0 <= i < |body|
      ensures body[i] in actions && body[i] in {Hold, Resume, Failure, Recover} && RecoversRight(body, i)
    {
      assert body[i] == call[i] && call[i] in call && body[i] in body;
    }
    if |body| > 0 {
      HoldsOpenStep(body, 0);
      assert body[..0] == [];
      assert 0 <= HoldsOpen(body[..1]) <= 1;
      assert body[0] == Hold || body[0] == Failure;
      if |body| > 1 {
        HoldsOpenStep(body, 1);
        assert 0 <= HoldsOpen(body[..2]) <= 1;
        assert RecoversRight(body, 1);
        assert body[0] == Hold && body[1] == Failure;
        var k := if |body| > 2 then 2 else 1;
        assert RecoversRight(body, k);
      }
    }
  }

  /**
   Some valid call of the allowed actions and length has at least `length` actions, exactly when the actions are
   enough for it.
   */
  lemma LongTraces(actions: Trace, maxActions: nat, length: nat)
    requires Hangup in actions && 1 <= length <= maxActions
    ensures (exists s :: Candidate(actions, maxActions, s) && |s| >= length) <==> LongEnough(actions, length)
  {
    hide ValidCall;
    if LongEnough(actions, length) {
      var call := LongCall(actions, length);
      assert Candidate(actions, maxActions, call) && |call| >= length;
    } else {
      forall s | Candidate(actions, maxActions, s) ensures |s| < length {
        ShortBody(actions, s);
      }
    }
  }

  /** Hanging up is the only call when nothing else is allowed. */
  lemma OnlyHangup()
    ensures !LongEnough([Hangup], 2) && forall s :: Candidate([Hangup], 7, s) ==> |s| < 2
  {
    hide Candidate;
    LongTraces([Hangup], 7, 2);
  }

  // ----- the greedy cover

  function OrderedSubsequences(sequence: Trace, strength: nat): set<Trace> {
    set t | t in Combinations(sequence, strength)
  }

  lemma OrderedSubsequencesAreScans(sequence: Trace, strength: nat)
    ensures forall t :: t in OrderedSubsequences(sequence, strength) <==> |t| == strength && Scan(t, sequence)
  {
    forall t ensures t in OrderedSubsequences(sequence, strength) <==> |t| == strength && Scan(t, sequence) {
      CombinationsAreScans(sequence, strength, t);
    }
  }

  function Score(candidate: Trace, strength: nat, uncovered: set<Trace>): nat {
    |OrderedSubsequences(candidate, strength) * uncovered|
  }

  /** What is still uncovered after the given picks. */
  function Uncovered(required: set<Trace>, picks: seq<Trace>, strength: nat): set<Trace> {
    if picks == [] then required
    else Uncovered(required, picks[..|picks| - 1], strength) - OrderedSubsequences(picks[|picks| - 1], strength)
  }

  ghost predicate Together(cover: seq<Trace>, strength: nat, goal: set<Trace>) {
    forall t :: t in goal ==> exists i :: 0 <= i < |cover| && t in OrderedSubsequences(cover[i], strength)
  }

  /** Every pick scored at least as high as any candidate could at its turn. */
  ghost predicate Greedy(candidates: seq<Trace>, required: set<Trace>, picks: seq<Trace>, strength: nat) {
    forall m :: 0 <= m < |picks| ==>
      && picks[m] in candidates
      && forall c :: c in candidates ==>
           Score(c, strength, Uncovered(required, picks[..m], strength))
           <= Score(picks[m], strength, Uncovered(required, picks[..m], strength))
  }

  lemma ScoreShrinks(c: Trace, strength: nat, part: set<Trace>, whole: set<Trace>)
    requires part <= whole
    ensures Score(c, strength, part) <= Score(c, strength, whole)
  {
    var own := OrderedSubsequences(c, strength);
    SubsetSize(own * part, own * whole);
  }

  lemma ScoreSplits(c: Trace, strength: nat, goal: set<Trace>)
    ensures |goal| == Score(c, strength, goal) + |goal - OrderedSubsequences(c, strength)|
  {
  }

  lemma TogetherFront(cover: seq<Trace>, strength: nat, goal: set<Trace>)
    requires Together(cover, strength, goal) && cover != []
    ensures Together(cover[..|cover| - 1], strength, goal - OrderedSubsequences(cover[|cover| - 1], strength))
  {
  }

  lemma {:induction false} UnionBound(cover: seq<Trace>, strength: nat, goal: set<Trace>, best: nat)
    requires Together(cover, strength, goal)
    requires forall i :: 0 <= i < |cover| ==> Score(cover[i], strength, goal) <= best
    ensures |goal| <= best * |cover|
  {
    if cover == [] {
      assert goal == {};
    } else {
      hide Score, OrderedSubsequences, Together;
      var n := |cover| - 1;
      var front, last := cover[..n], cover[n];
      var rest := goal - OrderedSubsequences(last, strength);
      TogetherFront(cover, strength, goal);
      forall i | 0 <= i < |front| ensures Score(front[i], strength, rest) <= best {
        ScoreShrinks(front[i], strength, rest, goal);
        assert front[i] == cover[i];
      }
      UnionBound(front, strength, rest, best);
      ScoreSplits(last, strength, goal);
      OneMore(best, n);
    }
  }

  lemma OneMore(best: nat, n: nat)
    ensures best + best * n == best * (n + 1)
  {
  }

  lemma SubsetSize<T>(a: set<T>, b: set<T>)
    requires a <= b
    ensures |a| <= |b|
  {
    assert |b - a| == |b| - |a|;
  }

  /**
   Greedy progress. If any k candidates together cover what is left, the best score s has s·k at
   least the number left; so a pick never scores zero while something is left.
   */
  lemma GreedyStep(candidates: seq<Trace>, cover: seq<Trace>, strength: nat, left: set<Trace>, best: Trace)
    requires Together(cover, strength, left)
    requires forall c :: c in cover ==> c in candidates
    requires forall c :: c in candidates ==> Score(c, strength, left) <= Score(best, strength, left)
    ensures |left| <= Score(best, strength, left) * |cover|
    ensures left != {} ==> Score(best, strength, left) > 0
  {
    forall i | 0 <= i < |cover| ensures Score(cover[i], strength, left) <= Score(best, strength, left) {
      assert cover[i] in cover;
    }
    UnionBound(cover, strength, left, Score(best, strength, left));
  }

  ghost predicate Decayed(left: nat, k: nat, m: nat, total: nat)
    requires k > 0
  {
    left * Power(k, m) <= Power(k - 1, m) * total
  }

  lemma {:induction false} DecaysWithEachPick(candidates: seq<Trace>, cover: seq<Trace>, required: set<Trace>,
                                              picks: seq<Trace>,
                                                strength: nat)
    requires Greedy(candidates, required, picks, strength)
    requires Together(cover, strength, required) && cover != []
    requires forall c :: c in cover ==> c in candidates
    ensures Decayed(|Uncovered(required, picks, strength)|, |cover|, |picks|, |required|)
  {
    if picks != [] {
      hide OrderedSubsequences, Score, Greedy, Decayed, Uncovered, Together;
      var k, m := |cover|, |picks| - 1;
      var front, last := picks[..m], picks[m];
      GreedyFront(candidates, required, picks, strength);
      DecaysWithEachPick(candidates, cover, required, front, strength);
      var left := Uncovered(required, front, strength);
      TogetherShrinks(cover, required, front, strength);
      GreedyStep(candidates, cover, strength, left, last);
      UncoveredCount(required, picks, strength);
      DecayNumbers(|left|, Score(last, strength, left), k, m, |required|);
    }
  }

  /**
   Over a whole greedy run: against any cover by k candidates, m picks leave at most the fraction
   ((k-1)/k)^m of the required tuples.
   */
  lemma GreedyDecay(candidates: seq<Trace>, cover: seq<Trace>, required: set<Trace>, picks: seq<Trace>, strength: nat)
    requires Greedy(candidates, required, picks, strength)
    requires Together(cover, strength, required) && cover != []
    requires forall c :: c in cover ==> c in candidates
    ensures |Uncovered(required, picks, strength)| * Power(|cover|, |picks|) <= Power(|cover| - 1, |picks|) * |required|
  {
    DecaysWithEachPick(candidates, cover, required, picks, strength);
  }

  lemma TogetherShrinks(cover: seq<Trace>, required: set<Trace>, picks: seq<Trace>, strength: nat)
    requires Together(cover, strength, required)
    ensures Together(cover, strength, Uncovered(required, picks, strength))
  {
  }

  lemma UncoveredCount(required: set<Trace>, picks: seq<Trace>, strength: nat)
    requires picks != []
    ensures var m := |picks| - 1;
            var left := Uncovered(required, picks[..m], strength);
            |Uncovered(required, picks, strength)| == |left| - Score(picks[m], strength, left)
              && Score(picks[m], strength, left) <= |left|
  {
  }

  lemma DecayNumbers(left: nat, s: nat, k: nat, m: nat, total: nat)
    requires k > 0 && left <= s * k && s <= left
    requires Decayed(left, k, m, total)
    ensures Decayed(left - s, k, m + 1, total)
  {
    DecayStep(left, s, k, Power(k, m), Power(k - 1, m) * total);
    Associate(k - 1, Power(k - 1, m), total);
  }

  lemma GreedyFront(candidates: seq<Trace>, required: set<Trace>, picks: seq<Trace>, strength: nat)
    requires Greedy(candidates, required, picks, strength) && picks != []
    ensures var m := |picks| - 1;
            && Greedy(candidates, required, picks[..m], strength)
            && forall c :: c in candidates ==>
                 Score(c, strength, Uncovered(required, picks[..m], strength))
                 <= Score(picks[m], strength, Uncovered(required, picks[..m], strength))
  {
    hide Score, Uncovered;
    var front := picks[..|picks| - 1];
    forall i | 0 <= i < |front| ensures front[..i] == picks[..i] && front[i] == picks[i] {
    }
  }

  lemma Associate(a: nat, b: nat, c: nat)
    ensures (a * b) * c == a * (b * c)
  {
  }

  lemma DecayStep(left: nat, s: nat, k: nat, p: nat, bound: nat)
    requires k > 0 && left <= s * k && s <= left && left * p <= bound
    ensures (left - s) * (k * p) <= (k - 1) * bound
  {
    assert (left - s) * k <= left * (k - 1);
    calc {
      (left - s) * (k * p);
    ==
      ((left - s) * k) * p;
    <=  { Monotone((left - s) * k, left * (k - 1), p); }
      (left * (k - 1)) * p;
    ==
      (k - 1) * (left * p);
    <=  { Monotone(left * p, bound, k - 1); }
      (k - 1) * bound;
    }
  }

  lemma Monotone(a: nat, b: nat, c: nat)
    requires a <= b
    ensures a * c <= b * c && c * a <= c * b
  {
  }

  lemma {:induction false} UncoveredShrinks(required: set<Trace>, picks: seq<Trace>, strength: nat)
    ensures Uncovered(required, picks, strength) <= required
    ensures forall t :: t in required && t !in Uncovered(required, picks, strength) ==>
              exists i :: 0 <= i < |picks| && t in OrderedSubsequences(picks[i], strength)
  {
    if picks != [] {
      var n := |picks| - 1;
      UncoveredShrinks(required, picks[..n], strength);
      forall t | t in required && t !in Uncovered(required, picks, strength)
        ensures exists i :: 0 <= i < |picks| && t in OrderedSubsequences(picks[i], strength)
      {
        if t !in Uncovered(required, picks[..n], strength) {
          var i :| 0 <= i < n && t in OrderedSubsequences(picks[..n][i], strength);
          assert picks[i] == picks[..n][i];
        }
      }
    }
  }

  /** The highest scorer, ties broken by an arbitrary digest. */
  method BestCandidate(candidates: seq<Trace>, strength: nat, uncovered: set<Trace>, digest: Trace -> nat)
    returns (best: Trace)
    requires candidates != []
    ensures best in candidates
    ensures forall c :: c in candidates ==> Score(c, strength, uncovered) <= Score(best, strength, uncovered)
  {
    hide Score;
    best := candidates[0];
    for i := 1 to |candidates|
      invariant best in candidates
      invariant forall k :: 0 <= k < i ==> Score(candidates[k], strength, uncovered) <= Score(best, strength, uncovered)
    {
      var score, top := Score(candidates[i], strength, uncovered), Score(best, strength, uncovered);
      if score > top || (score == top && digest(candidates[i]) > digest(best)) {
        best := candidates[i];
      }
    }
  }

  /** Pick greedily until every required tuple is inside some picked trace. */
  method GreedyCover(candidates: seq<Trace>, required: set<Trace>, strength: nat, digest: (nat, Trace) -> nat)
    returns (selected: seq<Trace>)
    requires Together(candidates, strength, required)
    ensures Greedy(candidates, required, selected, strength)
    ensures selected != [] ==> Uncovered(required, selected[..|selected| - 1], strength) != {}
    ensures forall s :: s in selected ==> s in candidates
    ensures Together(selected, strength, required)
    ensures |selected| <= |required|
  {
    hide Greedy, Score, Together, Uncovered;
    selected := [];
    var uncovered := required;
    NothingPicked(candidates, required, strength);
    while uncovered != {}
      invariant uncovered == Uncovered(required, selected, strength) && uncovered <= required
      invariant Greedy(candidates, required, selected, strength)
      invariant selected != [] ==> Uncovered(required, selected[..|selected| - 1], strength) != {}
      invariant forall s :: s in selected ==> s in candidates
      invariant |selected| + |uncovered| <= |required|
      decreases |uncovered|
    {
      TogetherShrinks(candidates, required, selected, strength);
      SomeCandidate(candidates, strength, uncovered);
      var turn := |selected|;
      var best := BestCandidate(candidates, strength, uncovered, t => digest(turn, t));
      GreedyStep(candidates, candidates, strength, uncovered, best);
      if Score(best, strength, uncovered) == 0 {
        assert false;
      }
      GreedyGrows(candidates, required, selected, strength, best);
      ScoreSplits(best, strength, uncovered);
      assert (selected + [best])[..|selected|] == selected;
      selected := selected + [best];
      uncovered := uncovered - OrderedSubsequences(best, strength);
    }
    AllPicked(required, selected, strength);
  }

  lemma NothingPicked(candidates: seq<Trace>, required: set<Trace>, strength: nat)
    ensures Greedy(candidates, required, [], strength) && Uncovered(required, [], strength) == required
  {
  }

  lemma AllPicked(required: set<Trace>, picks: seq<Trace>, strength: nat)
    requires Uncovered(required, picks, strength) == {}
    ensures Together(picks, strength, required)
  {
    UncoveredShrinks(required, picks, strength);
  }

  lemma SomeCandidate(candidates: seq<Trace>, strength: nat, goal: set<Trace>)
    requires Together(candidates, strength, goal) && goal != {}
    ensures candidates != []
  {
  }

  lemma GreedyGrows(candidates: seq<Trace>, required: set<Trace>, picks: seq<Trace>, strength: nat, best: Trace)
    requires Greedy(candidates, required, picks, strength) && best in candidates
    requires var left := Uncovered(required, picks, strength);
             forall c :: c in candidates ==> Score(c, strength, left) <= Score(best, strength, left)
    ensures Greedy(candidates, required, picks + [best], strength)
    ensures Uncovered(required, picks + [best], strength) ==
            Uncovered(required, picks, strength) - OrderedSubsequences(best, strength)
  {
    hide Score, Uncovered;
    var grown := picks + [best];
    forall m | 0 <= m <= |picks| ensures grown[..m] == picks[..m] {
    }
    assert picks[..|picks|] == picks;
    UncoveredStep(required, grown, strength);
  }

  lemma UncoveredStep(required: set<Trace>, picks: seq<Trace>, strength: nat)
    requires picks != []
    ensures Uncovered(required, picks, strength) ==
            Uncovered(required, picks[..|picks| - 1], strength) - OrderedSubsequences(picks[|picks| - 1], strength)
  {
  }

  // ----- the generator

  datatype SequenceCover = SequenceCover(sequences: seq<Trace>, required: set<Trace>, excluded: set<Trace>)

  /** Some valid trace of the allowed length contains the tuple in order. */
  ghost predicate Reachable(actions: Trace, maxActions: nat, tuple: Trace) {
    exists s :: Candidate(actions, maxActions, s) && Scan(tuple, s)
  }

  /** Every pick was a best one among all the valid traces, and was made because something was uncovered. */
  ghost predicate PickedGreedily(actions: Trace, maxActions: nat, strength: nat, c: SequenceCover) {
    exists candidates: seq<Trace> ::
      && (forall s :: s in candidates <==> Candidate(actions, maxActions, s))
      && Greedy(candidates, c.required, c.sequences, strength)
      && (c.sequences != [] ==> Uncovered(c.required, c.sequences[..|c.sequences| - 1], strength) != {})
  }

  /**
   How many traces the generator may need when k valid traces would do: n of them only if the first n - 1 could
   leave one required tuple, at the rate of the greedy decay.
   */
  lemma FewSequences(actions: Trace, maxActions: nat, strength: nat, c: SequenceCover, cover: seq<Trace>)
    requires PickedGreedily(actions, maxActions, strength, c) && c.sequences != []
    requires Together(cover, strength, c.required) && cover != []
    requires forall s :: s in cover ==> Candidate(actions, maxActions, s)
    ensures var k, n := |cover|, |c.sequences|; Power(k, n - 1) <= Power(k - 1, n - 1) * |c.required|
  {
    hide Candidate, Together, Uncovered, Greedy, Power;
    var candidates: seq<Trace> :|
      && (forall s :: s in candidates <==> Candidate(actions, maxActions, s))
      && Greedy(candidates, c.required, c.sequences, strength)
      && Uncovered(c.required, c.sequences[..|c.sequences| - 1], strength) != {};
    var front := c.sequences[..|c.sequences| - 1];
    GreedyFront(candidates, c.required, c.sequences, strength);
    GreedyDecay(candidates, cover, c.required, front, strength);
    AtLeastOne(|Uncovered(c.required, front, strength)|, Power(|cover|, |front|));
  }

  lemma AtLeastOne(a: nat, b: nat)
    requires a > 0
    ensures b <= a * b
  {
  }

  /** What the generator asks of its arguments. */
  predicate GoodActions(actions: Trace, maxActions: int, strength: int) {
    && 1 <= strength <= maxActions <= 7 && Distinct(actions) && Hangup in actions
    && forall i :: 0 <= i < |actions| ==> !actions[i].Unsupported?
  }

  method CollectRequired(candidates: seq<Trace>, strength: nat) returns (required: set<Trace>)
    ensures forall t :: t in required <==> |t| == strength && exists s :: s in candidates && Scan(t, s)
    ensures Together(candidates, strength, required)
  {
    required := {};
    for i := 0 to |candidates|
      invariant forall t :: t in required <==> |t| == strength && exists k :: 0 <= k < i && Scan(t, candidates[k])
    {
      OrderedSubsequencesAreScans(candidates[i], strength);
      if |candidates[i]| >= strength {
        required := required + OrderedSubsequences(candidates[i], strength);
      } else {
        forall t | |t| == strength ensures !Scan(t, candidates[i]) {
          if Scan(t, candidates[i]) {
            ScanMembers(t, candidates[i]);
          }
        }
      }
    }
    forall t | t in required
      ensures exists i :: 0 <= i < |candidates| && t in OrderedSubsequences(candidates[i], strength)
    {
      var k :| 0 <= k < |candidates| && Scan(t, candidates[k]);
      OrderedSubsequencesAreScans(candidates[k], strength);
    }
    forall t ensures t in required <==> |t| == strength && exists s :: s in candidates && Scan(t, s) {
      if |t| == strength && exists s :: s in candidates && Scan(t, s) {
        var s :| s in candidates && Scan(t, s);
        var k :| 0 <= k < |candidates| && candidates[k] == s;
      }
    }
  }

  /**
   The whole generator. A tuple is required exactly when some valid trace within the length
   limit contains it in order and excluded exactly when none does; only valid traces are
   selected, and together they contain every required tuple. Only bad arguments are refused: the
   candidate limit is out of reach.
   */
  method GenerateEventSequences(actions: Trace, maxActions: int, strength: int, digest: (nat, Trace) -> nat)
    returns (r: Result<SequenceCover, SequenceError>)
    ensures r.Ok? <==> GoodActions(actions, maxActions, strength)
    ensures r.Ok? ==> forall s :: s in r.value.sequences ==> Candidate(actions, maxActions, s)
    ensures r.Ok? ==> Together(r.value.sequences, strength, r.value.required)
    ensures r.Ok? ==> forall t :: t in r.value.required <==> |t| == strength && Reachable(actions, maxActions, t)
    ensures r.Ok? ==> forall t :: t in r.value.excluded <==>
                        |t| == strength && (forall a :: a in t ==> a in actions) && !Reachable(actions, maxActions, t)
    ensures r.Ok? ==> |r.value.sequences| <= |r.value.required|
    ensures r.Ok? ==> PickedGreedily(actions, maxActions, strength, r.value)
    ensures r != Err(TooManyCandidates)
  {
    if !(1 <= maxActions <= 7) {
      return Err(BadMaxActions);
    }
    if !(1 <= strength <= maxActions) {
      return Err(BadStrength);
    }
    if !Distinct(actions) {
      return Err(DuplicateActions);
    }
    if exists i :: 0 <= i < |actions| && actions[i].Unsupported? {
      return Err(UnsupportedAction);
    }
    if Hangup !in actions {
      return Err(NoHangup);
    }
    FewPrefixes(actions, maxActions);
    var enumerated := EnumerateCandidates(actions, maxActions);
    assert enumerated.Ok?;
    var candidates := enumerated.value;
    var required := CollectRequired(candidates, strength);
    var all := set t | t in Words(actions, strength);
    var selected := GreedyCover(candidates, required, strength, digest);
    var excluded := all - required;
    ExcludedAre(actions, maxActions, strength, candidates, required, excluded);
    r := Ok(SequenceCover(selected, required, excluded));
    assert PickedGreedily(actions, maxActions, strength, r.value);
  }

  lemma ExcludedAre(actions: Trace, maxActions: nat, strength: nat, candidates: seq<Trace>, required: set<Trace>,
                    excluded: set<Trace>)
    requires forall s :: s in candidates <==> Candidate(actions, maxActions, s)
    requires forall t :: t in required <==> |t| == strength && exists s :: s in candidates && Scan(t, s)
    requires excluded == (set t | t in Words(actions, strength)) - required
    ensures forall t :: t in required <==> |t| == strength && Reachable(actions, maxActions, t)
    ensures forall t :: t in excluded <==>
              |t| == strength && (forall a :: a in t ==> a in actions) && !Reachable(actions, maxActions, t)
  {
    hide Candidate, Words;
    forall t ensures t in required <==> |t| == strength && Reachable(actions, maxActions, t) {
    }
    forall t ensures t in excluded <==>
        |t| == strength && (forall a :: a in t ==> a in actions) && !Reachable(actions, maxActions, t)
    {
      WordsMembers(actions, strength, t);
    }
  }
}
