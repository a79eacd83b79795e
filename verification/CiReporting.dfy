/** The reporter together with the CI test report that it writes alongside. */
module CiReporting {
  import opened Results
  import opened Reporter
  import opened ReportWriter

  /** The records of the tests, in the form in which the report holds them. */
  function Rendered(tests: seq<ReportedTest>, render: ReportedTest -> Text): (records: seq<Text>)
    ensures |records| == |tests| && forall i :: 0 <= i < |tests| ==> records[i] == render(tests[i])
  {
    seq(|tests|, i requires 0 <= i < |tests| => render(tests[i]))
  }

  /** The report so far: being written and complete up to here, or given up with the old one as it was. */
  ghost predicate Underway(writer: CiTestReportWriter, writing: bool, records: seq<Text>)
    reads writer
  {
    && writer.Distinctness() && writer.OnlyTemporary()
    && (writing ==> writer.Valid() && writer.tests == records)
  }

  lemma {:induction false} NothingRendered(render: ReportedTest -> Text)
    ensures Rendered([], render) == []
  {
  }

  lemma {:induction false} RenderedAppend(a: seq<ReportedTest>, b: seq<ReportedTest>, render: ReportedTest -> Text)
    ensures Rendered(a + b, render) == Rendered(a, render) + Rendered(b, render)
  {
  }

  lemma {:induction false} UnderwayIs(writer: CiTestReportWriter, writing: bool, records: seq<Text>)
    requires Underway(writer, writing, records)
    ensures writer.Distinctness() && writer.OnlyTemporary()
    ensures writing ==> writer.Valid() && writer.tests == records
  {
  }

  lemma {:induction false} BeginsUnderway(writer: CiTestReportWriter, writing: bool)
    requires writer.Distinctness()
    requires if writing then writer.Valid() && writer.tests == [] else writer.OnlyTemporary()
    ensures Underway(writer, writing, [])
  {
  }

  /** Write one record, and give the report up if that fails. */
  method WriteOne(writer: CiTestReportWriter, record: Text, ghost records: seq<Text>) returns (writing: bool)
    requires Underway(writer, true, records)
    modifies writer
    ensures Underway(writer, writing, records + [record])
    ensures old(writer.operations) <= writer.operations
    ensures writing <==> writer.NoFault(old(writer.operations), writer.operations)
    ensures !writing ==> exists before :: writer.trace == before + [RemoveTemporary, RemoveBackupFile]
  {
    hide CiTestReportWriter.OnlyTemporary, CiTestReportWriter.Distinctness, CiTestReportWriter.Ran;
    ghost var before, n := writer.trace, writer.operations;
    ghost var plan := (if records == [] then [] else [Append(",")]) + [Append(record)];
    writing := writer.WriteTest(record);
    writer.RanCounts(before, n, writer.trace, writer.operations, plan, writing);
    writer.RanWithin(before, n, writer.trace, writer.operations, plan, writing);
    if !writing {
      writer.UntouchedIsSafe("");
      ghost var failed := writer.trace;
      var cleaned := writer.Cleanup(false, "");
      assert writer.trace == failed + [RemoveTemporary, RemoveBackupFile];
    }
  }

  lemma {:induction false} StaysGivenUp(writer: CiTestReportWriter, a: seq<Text>, b: seq<Text>)
    ensures Underway(writer, false, a) ==> Underway(writer, false, b)
  {
  }

  lemma {:induction false} OneMoreRecord(
      tests: seq<ReportedTest>, i: nat, render: ReportedTest -> Text, records: seq<Text>)
    requires i < |tests|
    ensures records + Rendered(tests[..i + 1], render)
            == (records + Rendered(tests[..i], render)) + [render(tests[i])]
  {
    assert Rendered(tests[..i + 1], render) == Rendered(tests[..i], render) + [render(tests[i])];
  }

  /** Write the tests of one message to the report, as long as it is being written. */
  method WriteTests(
    writer: CiTestReportWriter, writingBefore: bool, tests: seq<ReportedTest>, render: ReportedTest -> Text,
    ghost records: seq<Text>)
    returns (writing: bool)
    requires Underway(writer, writingBefore, records)
    modifies writer
    ensures Underway(writer, writing, records + Rendered(tests, render))
    ensures old(writer.operations) <= writer.operations
    ensures writingBefore && !writing ==>
              exists before :: writer.trace == before + [RemoveTemporary, RemoveBackupFile]
    ensures writing <==> writingBefore && writer.NoFault(old(writer.operations), writer.operations)
  {
    hide Underway, Rendered;
    writing := writingBefore;
    assert Rendered(tests[..0], render) == [] && records + [] == records;
    for i := 0 to |tests|
      invariant Underway(writer, writing, records + Rendered(tests[..i], render))
      invariant old(writer.operations) <= writer.operations
      invariant writingBefore && !writing ==>
                  exists before :: writer.trace == before + [RemoveTemporary, RemoveBackupFile]
      invariant writing <==> writingBefore && writer.NoFault(old(writer.operations), writer.operations)
    {
      OneMoreRecord(tests, i, render, records);
      if writing {
        writing := WriteOne(writer, render(tests[i]), records + Rendered(tests[..i], render));
      } else {
        StaysGivenUp(writer, records + Rendered(tests[..i], render), records + Rendered(tests[..i + 1], render));
      }
    }
    assert tests[..|tests|] == tests;
  }

  /**
   * The reporter with a CI report. Whatever happens to the report, the account and the verdict are
   * those of the reporter alone; and a report that is published holds a record for every written
   * test, in order, while the old report survives any failure. It is published unless a file
   * operation fails or a file of the report is in the way.
   */
  method ReportAll(
    messages: seq<Message>, accepts: nat -> bool, writer: CiTestReportWriter, render: ReportedTest -> Text,
    hostPlatform: Text, traceId: Text)
    returns (passes: bool, account: Account, published: bool, recovery: Option<Path>)
    requires writer.Distinctness() && writer.Started()
    requires writer.header == Header(hostPlatform, traceId)
    modifies writer
    ensures Covers(account, messages)
    ensures passes <==> AllGreen(messages) && AllAccepted(accepts, |account.written|)
    ensures var report := Report(hostPlatform, traceId, Rendered(account.written, render));
            && writer.AlwaysSafe(report)
            && (published ==>
                  && writer.At(writer.files, writer.destination, report)
                  && writer.temporary !in writer.files && writer.NoBackup(writer.files))
    ensures old(writer.operations) <= writer.operations
    ensures published <==>
            && writer.NoFault(old(writer.operations), writer.operations)
            && !writer.blocked && writer.temporary !in writer.original
    ensures !published && recovery.None? ==> writer.Restored(writer.files)
    ensures !published && recovery.Some? && writer.destination in writer.original ==>
              writer.At(writer.files, recovery.value, writer.original[writer.destination])
  {
    hide CiTestReportWriter.OnlyTemporary, CiTestReportWriter.Distinctness, CiTestReportWriter.Valid;
    hide Covers, AllGreen, AllAccepted, TestsOf, Underway, Rendered;
    var writing, cleaned := writer.Open(hostPlatform, traceId);
    BeginsUnderway(writer, writing);
    account := NothingReceived(accepts);
    passes := true;
    WrittenSoFar(account, []);
    NothingWritten();
    NothingRendered(render);
    for i := 0 to |messages|
      invariant Covers(account, messages[..i])
      invariant passes <==> AllGreen(messages[..i]) && AllAccepted(accepts, |account.written|)
      invariant Underway(writer, writing, Rendered(account.written, render))
      invariant old(writer.operations) <= writer.operations
      invariant writing <==>
                writer.NoFault(old(writer.operations), writer.operations) && writer.temporary !in writer.original
    {
      ghost var before := account.written;
      if messages[i].Finished? {
        writing := WriteTests(writer, writing, messages[i].tests, render, Rendered(account.written, render));
      }
      WrittenSoFar(account, messages[..i]);
      passes, account := Receive(messages[..i], messages[i], accepts, passes, account);
      WrittenSoFar(account, messages[..i] + [messages[i]]);
      TestsGrow(messages[..i], messages[i]);
      assert messages[..i + 1] == messages[..i] + [messages[i]];
      if messages[i].Finished? {
        RenderedAppend(before, messages[i].tests, render);
      } else {
        assert before + [] == before;
      }
    }
    assert messages[..|messages|] == messages;
    ghost var report := Report(hostPlatform, traceId, Rendered(account.written, render));
    recovery := None;
    UnderwayIs(writer, writing, Rendered(account.written, render));
    if writing {
      published, recovery, cleaned := writer.Finish();
    } else {
      published := false;
      writer.UntouchedIsSafe(report);
    }
  }

  lemma {:induction false} WrittenSoFar(account: Account, messages: seq<Message>)
    requires Covers(account, messages)
    ensures account.written == TestsOf(messages)
  {
  }

  lemma {:induction false} NothingWritten()
    ensures TestsOf([]) == []
  {
  }

  lemma {:induction false} TestsGrow(messages: seq<Message>, message: Message)
    ensures TestsOf(messages + [message]) == TestsOf(messages) + (if message.Finished? then message.tests else [])
  {
    assert (messages + [message])[..|messages|] == messages;
  }
}
