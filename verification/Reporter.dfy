/** The reporter: the single task that writes results, tallies them and owns the verdict. */
module Reporter {
  import opened Results
  import opened ActionModel

  // ---------------------------------------------------------------- messages and verdicts

  datatype ReportedTest = ReportedTest(target: string, result: FinishedTest, quarantined: bool)

  datatype Message =
    | Finished(tests: seq<ReportedTest>)
    | Discovered(target: string, names: seq<Name>)
    | TargetDropped

  datatype Disposition = Passed | Skipped | QuarantinedFailure | Failure

  /** Quarantine excuses a failure that is complete; a test without a terminal result always fails. */
  function ReportDisposition(test: ReportedTest): (disposition: Disposition)
    ensures disposition == Passed <==> test.result.outcome.integrity.Complete? && test.result.outcome.status == Pass
    ensures disposition == Skipped <==>
            && test.result.outcome.integrity.Complete?
            && (test.result.outcome.status == Skip || test.result.outcome.status == Omitted)
    ensures disposition == QuarantinedFailure <==>
            && test.result.outcome.integrity.Complete?
            && test.result.outcome.status.IsFailure() && test.quarantined
    ensures disposition == Failure <==>
            || test.result.outcome.integrity.MissingTerminalResult?
            || (test.result.outcome.status.IsFailure() && !test.quarantined)
  {
    var outcome := test.result.outcome;
    if outcome.integrity == MissingTerminalResult then Failure
    else
      match outcome.status
      case Pass => Passed
      case Skip => Skipped
      case Omitted => Skipped
      case _ => if test.quarantined then QuarantinedFailure else Failure
  }

  /** What a green run promises about one test. */
  predicate Acceptable(outcome: BestObs, quarantined: bool) {
    outcome.integrity == Complete && (!outcome.status.IsFailure() || quarantined)
  }

  predicate GreenTest(test: ReportedTest) {
    Acceptable(test.result.outcome, test.quarantined)
  }

  lemma DispositionFailsIff(test: ReportedTest)
    ensures ReportDisposition(test) == Failure <==> !GreenTest(test)
  {
  }

  ghost predicate Green(message: Message) {
    match message
    case Finished(tests) => forall t :: t in tests ==> GreenTest(t)
    case Discovered(_, _) => true
    case TargetDropped => false
  }

  ghost predicate AllGreen(messages: seq<Message>) {
    forall m :: m in messages ==> Green(m)
  }

  // ---------------------------------------------------------------- the reporter

  datatype Tally = Tally(total: nat, passed: nat, failed: nat, quarantinedFailed: nat, skipped: nat)

  function Bump(tally: Tally, disposition: Disposition): Tally {
    var counted := tally.(total := tally.total + 1);
    match disposition
    case Passed => counted.(passed := counted.passed + 1)
    case Skipped => counted.(skipped := counted.skipped + 1)
    case QuarantinedFailure => counted.(quarantinedFailed := counted.quarantinedFailed + 1)
    case Failure => counted.(failed := counted.failed + 1)
  }

  function TestsOf(messages: seq<Message>): seq<ReportedTest> {
    if messages == [] then []
    else
      var last := messages[|messages| - 1];
      TestsOf(messages[..|messages| - 1]) + (if last.Finished? then last.tests else [])
  }

  /** How many of the tests have the disposition. */
  function CountOf(tests: seq<ReportedTest>, disposition: Disposition): nat {
    if tests == [] then 0
    else
      var last := tests[|tests| - 1];
      CountOf(tests[..|tests| - 1], disposition) + (if ReportDisposition(last) == disposition then 1 else 0)
  }

  function Drops(messages: seq<Message>): nat {
    if messages == [] then 0
    else Drops(messages[..|messages| - 1]) + (if messages[|messages| - 1].TargetDropped? then 1 else 0)
  }

  function SamplesIn(test: ReportedTest): seq<(string, Name, DbObservation)> {
    seq(|test.result.observations|, i requires 0 <= i < |test.result.observations| =>
        (test.target, test.result.name, test.result.observations[i]))
  }

  /** The samples the reporter adds to the duration database, in order. */
  function SamplesOf(tests: seq<ReportedTest>): seq<(string, Name, DbObservation)> {
    if tests == [] then []
    else
      var last := tests[|tests| - 1];
      SamplesOf(tests[..|tests| - 1])
      + SamplesIn(last)
  }

  /** How many observations come with the first `n` tests. */
  function ObservationsBefore(tests: seq<ReportedTest>, n: nat): nat
    requires n <= |tests|
  {
    if n == 0 then 0 else ObservationsBefore(tests, n - 1) + |tests[n - 1].result.observations|
  }

  lemma {:induction false} ObservationsOfPrefix(tests: seq<ReportedTest>, m: nat, n: nat)
    requires n <= m <= |tests|
    ensures ObservationsBefore(tests[..m], n) == ObservationsBefore(tests, n)
  {
    if n > 0 {
      ObservationsOfPrefix(tests, m, n - 1);
    }
  }

  /** The database gets each observation of each test, under its own target and name, test by test. */
  lemma {:induction false} SamplesInOrder(tests: seq<ReportedTest>, i: nat, j: nat)
    requires i < |tests| && j < |tests[i].result.observations|
    ensures |SamplesOf(tests)| == ObservationsBefore(tests, |tests|)
    ensures ObservationsBefore(tests, i) + j < |SamplesOf(tests)|
    ensures SamplesOf(tests)[ObservationsBefore(tests, i) + j]
            == (tests[i].target, tests[i].result.name, tests[i].result.observations[j])
  {
    hide SamplesOf, ObservationsBefore;
    var rest, last := tests[..|tests| - 1], |tests| - 1;
    SamplesOfLast(tests);
    SamplesCount(tests);
    SamplesCount(rest);
    ObservationsOfPrefix(tests, last, last);
    ObservationsOfPrefix(tests, last, i);
    if i < last {
      SamplesInOrder(rest, i, j);
    }
  }

  lemma {:induction false} SamplesOfLast(tests: seq<ReportedTest>)
    requires tests != []
    ensures SamplesOf(tests) == SamplesOf(tests[..|tests| - 1]) + SamplesIn(tests[|tests| - 1])
  {
  }

  lemma {:induction false} SamplesCount(tests: seq<ReportedTest>)
    ensures |SamplesOf(tests)| == ObservationsBefore(tests, |tests|)
  {
    if tests != [] {
      var last := |tests| - 1;
      SamplesCount(tests[..last]);
      ObservationsOfPrefix(tests, last, last);
    }
  }

  ghost predicate Tallies(tally: Tally, tests: seq<ReportedTest>, drops: nat) {
    && tally.passed == CountOf(tests, Passed)
    && tally.skipped == CountOf(tests, Skipped)
    && tally.quarantinedFailed == CountOf(tests, QuarantinedFailure)
    && tally.failed == CountOf(tests, Failure) + drops
    && tally.total == |tests| + drops
  }

  lemma {:induction false} EachTestHasOneDisposition(tests: seq<ReportedTest>)
    ensures CountOf(tests, Passed) + CountOf(tests, Skipped) + CountOf(tests, QuarantinedFailure)
            + CountOf(tests, Failure)
            == |tests|
  {
    hide ReportDisposition;
    if tests != [] {
      EachTestHasOneDisposition(tests[..|tests| - 1]);
    }
  }

  /** The summary's four counts add up to its total, dropped targets included. */
  lemma {:induction false} TallyAddsUp(tally: Tally, tests: seq<ReportedTest>, drops: nat)
    requires Tallies(tally, tests, drops)
    ensures tally.total == tally.passed + tally.failed + tally.quarantinedFailed + tally.skipped
  {
    EachTestHasOneDisposition(tests);
  }

  ghost predicate AllAccepted(accepts: nat -> bool, count: nat) {
    forall i :: 0 <= i < count ==> Accepted(accepts, i)
  }

  predicate Accepted(accepts: nat -> bool, i: nat) {
    accepts(i)
  }

  lemma {:induction false} GreenPush(messages: seq<Message>, message: Message)
    ensures AllGreen(messages + [message]) <==> AllGreen(messages) && Green(message)
  {
    hide Green;
    var grown := messages + [message];
    assert message in grown;
    assert forall m :: m in messages ==> m in grown;
  }

  lemma {:induction false} AcceptedUpTo(accepts: nat -> bool, before: nat, count: nat)
    requires before <= count
    ensures AllAccepted(accepts, count) <==>
            AllAccepted(accepts, before) && forall i :: before <= i < count ==> Accepted(accepts, i)
  {
  }

  function DiscoveredOf(messages: seq<Message>): seq<(string, Name)> {
    if messages == [] then []
    else
      var last := messages[|messages| - 1];
      DiscoveredOf(messages[..|messages| - 1])
      + (if last.Discovered? then Targeted(last.target, last.names) else [])
  }

  function Targeted(target: string, names: seq<Name>): seq<(string, Name)> {
    seq(|names|, i requires 0 <= i < |names| => (target, names[i]))
  }

  lemma {:induction false} DiscoveredPush(messages: seq<Message>, message: Message)
    ensures DiscoveredOf(messages + [message])
            == DiscoveredOf(messages) + (if message.Discovered? then Targeted(message.target, message.names) else [])
  {
    assert (messages + [message])[..|messages|] == messages;
  }

  /** The database gets to know a name exactly when some target announced it. */
  lemma {:induction false} DiscoveredIff(messages: seq<Message>, target: string, name: Name)
    ensures (target, name) in DiscoveredOf(messages)
            <==> exists m :: m in messages && m.Discovered? && m.target == target && name in m.names
  {
    if messages != [] {
      var rest, last := messages[..|messages| - 1], messages[|messages| - 1];
      DiscoveredIff(rest, target, name);
      assert messages == rest + [last];
      DiscoveredPush(rest, last);
      if last.Discovered? {
        assert (target, name) in Targeted(last.target, last.names) <==> last.target == target && name in last.names by {
          if i :| 0 <= i < |last.names| && last.names[i] == name {
            assert Targeted(last.target, last.names)[i] == (last.target, name);
          }
        }
      }
      if m :| m in messages && m.Discovered? && m.target == target && name in m.names {
        assert m in rest || m == last;
      }
    }
  }

  /** What the reporter has done: its tally, its writes, and what it put in the duration database. */
  datatype Account = Account(
    tally: Tally,
    written: seq<ReportedTest>,
    recorded: seq<(string, Name, DbObservation)>,
    discovered: seq<(string, Name)>)

  ghost predicate Covers(account: Account, messages: seq<Message>) {
    && account.written == TestsOf(messages)
    && account.recorded == SamplesOf(account.written)
    && account.discovered == DiscoveredOf(messages)
    && Tallies(account.tally, account.written, Drops(messages))
  }

  lemma {:induction false} CoversMore(account: Account, next: Account, messages: seq<Message>, message: Message)
    requires Covers(account, messages)
    requires next.written == account.written + (if message.Finished? then message.tests else [])
    requires next.recorded == SamplesOf(next.written)
    requires next.discovered == account.discovered
             + (if message.Discovered? then Targeted(message.target, message.names) else [])
    requires Tallies(next.tally, next.written, Drops(messages) + (if message.TargetDropped? then 1 else 0))
    ensures Covers(next, messages + [message])
  {
    hide Tallies, SamplesOf, Targeted;
    assert (messages + [message])[..|messages|] == messages;
  }

  /**
   * The reporter writes every received test once and in order, records every sample and every
   * discovered name, and its verdict is a pass exactly when nothing failed, nothing was dropped
   * and every write was accepted.
   */
  method ReporterTask(messages: seq<Message>, accepts: nat -> bool) returns (passes: bool, account: Account)
    ensures Covers(account, messages)
    ensures passes <==> AllGreen(messages) && AllAccepted(accepts, |account.written|)
  {
    hide AllGreen, AllAccepted, Covers;
    account := NothingReceived(accepts);
    passes := true;
    for i := 0 to |messages|
      invariant Covers(account, messages[..i])
      invariant passes <==> AllGreen(messages[..i]) && AllAccepted(accepts, |account.written|)
    {
      passes, account := Receive(messages[..i], messages[i], accepts, passes, account);
      assert messages[..i + 1] == messages[..i] + [messages[i]];
    }
    assert messages[..|messages|] == messages;
  }

  method NothingReceived(ghost accepts: nat -> bool) returns (account: Account)
    ensures Covers(account, [])
    ensures AllGreen([]) && AllAccepted(accepts, |account.written|)
  {
    hide Green;
    account := Account(Tally(0, 0, 0, 0, 0), [], [], []);
    assert TestsOf([]) == [] && SamplesOf([]) == [] && DiscoveredOf([]) == [] && Drops([]) == 0;
    assert forall disposition :: CountOf([], disposition) == 0;
  }

  /** Take one message off the channel. */
  method Receive(
      ghost before: seq<Message>, message: Message, accepts: nat -> bool, passesBefore: bool, accountBefore: Account)
    returns (passes: bool, account: Account)
    requires Covers(accountBefore, before)
    requires passesBefore <==> AllGreen(before) && AllAccepted(accepts, |accountBefore.written|)
    ensures Covers(account, before + [message])
    ensures passes <==> AllGreen(before + [message]) && AllAccepted(accepts, |account.written|)
  {
    hide AllGreen, AllAccepted, TestsOf, SamplesOf, CountOf, Drops, DiscoveredOf;
    passes, account := passesBefore, accountBefore;
    var tally := account.tally;
    match message {
      case Discovered(target, names) =>
        account := account.(discovered := account.discovered + Targeted(target, names));
      case TargetDropped =>
        account := account.(tally := tally.(total := tally.total + 1, failed := tally.failed + 1));
        passes := false;
      case Finished(tests) =>
        var written, recorded;
        passes, tally, written, recorded := ReportTests(
          tests, accepts, passes, tally, account.written, account.recorded, Drops(before));
        account := account.(tally := tally, written := written, recorded := recorded);
    }
    CoversMore(accountBefore, account, before, message);
    GreenPush(before, message);
    AcceptedUpTo(accepts, |accountBefore.written|, |account.written|);
  }

  lemma {:induction false} AppendTest(tests: seq<ReportedTest>, test: ReportedTest, tally: Tally, drops: nat)
    requires Tallies(tally, tests, drops)
    ensures Tallies(Bump(tally, ReportDisposition(test)), tests + [test], drops)
    ensures SamplesOf(tests + [test]) == SamplesOf(tests)
            + SamplesIn(test)
  {
    assert (tests + [test])[..|tests|] == tests;
  }

  method ReportTests(
    tests: seq<ReportedTest>, accepts: nat -> bool,
    passesBefore: bool, tallyBefore: Tally, writtenBefore: seq<ReportedTest>,
    recordedBefore: seq<(string, Name, DbObservation)>,
    ghost drops: nat)
    returns (passes: bool, tally: Tally, written: seq<ReportedTest>, recorded: seq<(string, Name, DbObservation)>)
    requires recordedBefore == SamplesOf(writtenBefore)
    requires Tallies(tallyBefore, writtenBefore, drops)
    ensures written == writtenBefore + tests
    ensures recorded == SamplesOf(written)
    ensures Tallies(tally, written, drops)
    ensures passes <==> passesBefore && (forall t :: t in tests ==> GreenTest(t))
                        && (forall i :: |writtenBefore| <= i < |written| ==> Accepted(accepts, i))
  {
    hide Tallies, SamplesOf, GreenTest, ReportDisposition, Bump, Accepted;
    passes, tally, written, recorded := passesBefore, tallyBefore, writtenBefore, recordedBefore;
    for k := 0 to |tests|
      invariant written == writtenBefore + tests[..k]
      invariant recorded == SamplesOf(written)
      invariant Tallies(tally, written, drops)
      invariant passes <==> passesBefore && (forall t :: t in tests[..k] ==> GreenTest(t))
                            && (forall i :: |writtenBefore| <= i < |writtenBefore| + k ==> Accepted(accepts, i))
    {
      var test := tests[k];
      assert tests[..k + 1] == tests[..k] + [test];
      AppendTest(written, test, tally, drops);
      DispositionFailsIff(test);
      tally := Bump(tally, ReportDisposition(test));
      if ReportDisposition(test) == Failure {
        passes := false;
      }
      if !Accepted(accepts, |written|) {
        passes := false;
      }
      recorded := recorded + SamplesIn(test);
      written := written + [test];
    }
    assert tests[..|tests|] == tests;
  }
}
