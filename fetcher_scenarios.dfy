/** The mock services and directories of internal/jira/fetcher_test.go. */
module FetcherFixtures {
  import opened Wrappers
  import opened Parser
  import opened GoJira

  function TestIssue(key: string): Issue
  {
    Issue(key, map[])
  }

  /** A service that has PROJ-1, PROJ-2 and PROJ-3. */
  function ServiceWithThree(key: string): Option<Issue>
  {
    if key == "PROJ-1" || key == "PROJ-2" || key == "PROJ-3" then Some(TestIssue(key)) else None
  }

  /** A service that has PROJ-1 and PROJ-3 only. */
  function ServiceWithGap(key: string): Option<Issue>
  {
    if key == "PROJ-1" || key == "PROJ-3" then Some(TestIssue(key)) else None
  }

  /** A service that has no issue at all. */
  function EmptyService(key: string): Option<Issue>
  {
    None
  }

  /** A service that answers PROJ-1 whatever it is asked. */
  function ConstantService(key: string): Option<Issue>
  {
    Some(TestIssue("PROJ-1"))
  }

  /** A directory where every write succeeds, and one where every write fails. */
  predicate WritableDir(file: string) { true }
  predicate MissingDir(file: string) { false }

  /** The `%d` rendering of the candidates the scenarios visit. */
  lemma ProjCandidateKeys()
    ensures FormatKey("PROJ", 1) == "PROJ-1" && FormatKey("PROJ", 2) == "PROJ-2"
    ensures FormatKey("PROJ", 3) == "PROJ-3" && FormatKey("PROJ", 5) == "PROJ-5"
  {
  }
}

/**
 * The scenarios of internal/jira/fetcher_test.go, stated of FetchSpec: the
 * mock services become client functions and a missing output directory a
 * write oracle that always fails.
 *
 * The helper lemmas take the prefix, the ending number or the ending key as
 * parameters fixed by their preconditions (`requires prefix == "PROJ" &&
 * n == 3`) instead of writing the literals into their bodies: the verifier
 * evaluates the parser and the walk eagerly on literal arguments, and a
 * parameter keeps it to the steps the proof asks for.
 */
module FetcherScenarios {
  import opened Wrappers
  import opened Parser
  import opened GoJira
  import opened Os
  import opened Output
  import opened Jira
  import opened FetcherFixtures

  /** An ending key that parses to prefix and number starts the walk there. */
  lemma FetchIsWalk(to: string, prefix: string, n: int, path: string, client: Client, marshal: Marshal,
                    canWrite: string -> bool, files: map<string, Bytes>)
    requires prefix == "PROJ" && 1 <= n <= 5 && FormatKey(prefix, n) == to
    ensures FetchSpec(to, path, client, marshal, canWrite, files) == Walk(prefix, n, path, client, marshal, canWrite, files)
  {
    ParseFormatRoundTrip(prefix, n);
  }

  /**
   * With every write succeeding, a walk returns exactly the retrieved issues,
   * each with its file.
   */
  lemma WalkWithWritableDir(prefix: string, n: int, path: string, client: Client, marshal: Marshal,
                            files: map<string, Bytes>)
    requires forall issue :: marshal(issue).Some?
    ensures var o := Walk(prefix, n, path, client, marshal, WritableDir, files);
      && o.err == None && o.issues == Retrieved(client, prefix, n)
      && (forall i :: 0 <= i < |o.issues| ==> FileName(path, o.issues[i].key) in o.files)
  {
    WalkFailsIff(prefix, n, path, client, marshal, WritableDir, files);
    WalkIssues(prefix, n, path, client, marshal, WritableDir, files);
    WalkWritesEveryIssue(prefix, n, path, client, marshal, WritableDir, files);
  }

  lemma RetrievedFromThree(prefix: string, n: int)
    requires prefix == "PROJ" && n == 3
    ensures Retrieved(ServiceWithThree, prefix, n) == [TestIssue("PROJ-3"), TestIssue("PROJ-2"), TestIssue("PROJ-1")]
  {
    var client: Client := ServiceWithThree;
    var i1, i2, i3 := TestIssue("PROJ-1"), TestIssue("PROJ-2"), TestIssue("PROJ-3");
    ProjCandidateKeys();
    assert client("PROJ-1") == Some(i1) && client("PROJ-2") == Some(i2) && client("PROJ-3") == Some(i3);
    var r1 := Retrieved(client, prefix, 1);
    assert r1 == [i1];
    var r2 := Retrieved(client, prefix, 2);
    assert r2 == [i2, i1];
    assert Retrieved(client, prefix, n) == [i3] + r2;
    assert [i3] + r2 == [i3, i2, i1];
  }

  lemma RetrievedWithGap(prefix: string, n: int)
    requires prefix == "PROJ" && n == 3
    ensures Retrieved(ServiceWithGap, prefix, n) == [TestIssue("PROJ-3"), TestIssue("PROJ-1")]
  {
    var client: Client := ServiceWithGap;
    var i1, i3 := TestIssue("PROJ-1"), TestIssue("PROJ-3");
    ProjCandidateKeys();
    assert client("PROJ-1") == Some(i1) && client("PROJ-2") == None && client("PROJ-3") == Some(i3);
    var r1 := Retrieved(client, prefix, 1);
    assert r1 == [i1];
    var r2 := Retrieved(client, prefix, 2);
    assert r2 == [i1];
    assert Retrieved(client, prefix, n) == [i3] + r2;
    assert [i3] + r2 == [i3, i1];
  }

  /** Ending key PROJ-3, all three present: [PROJ-3, PROJ-2, PROJ-1] and their three files. */
  lemma ScenarioAllPresent(path: string, marshal: Marshal, files: map<string, Bytes>)
    requires forall issue :: marshal(issue).Some?
    ensures var o := FetchSpec("PROJ-3", path, ServiceWithThree, marshal, WritableDir, files);
      && o.err == None
      && o.issues == [TestIssue("PROJ-3"), TestIssue("PROJ-2"), TestIssue("PROJ-1")]
      && FileName(path, "PROJ-1") in o.files && FileName(path, "PROJ-2") in o.files
      && FileName(path, "PROJ-3") in o.files
  {
    ProjCandidateKeys();
    FetchIsWalk("PROJ-3", "PROJ", 3, path, ServiceWithThree, marshal, WritableDir, files);
    AllPresentWalk("PROJ", 3, path, marshal, files);
  }

  lemma AllPresentWalk(prefix: string, n: int, path: string, marshal: Marshal, files: map<string, Bytes>)
    requires prefix == "PROJ" && n == 3
    requires forall issue :: marshal(issue).Some?
    ensures var o := Walk(prefix, n, path, ServiceWithThree, marshal, WritableDir, files);
      && o.err == None
      && o.issues == [TestIssue("PROJ-3"), TestIssue("PROJ-2"), TestIssue("PROJ-1")]
      && FileName(path, "PROJ-1") in o.files && FileName(path, "PROJ-2") in o.files
      && FileName(path, "PROJ-3") in o.files
  {
    RetrievedFromThree(prefix, n);
    WalkWithWritableDir(prefix, n, path, ServiceWithThree, marshal, files);
    var o := Walk(prefix, n, path, ServiceWithThree, marshal, WritableDir, files);
    assert o.issues[0].key == "PROJ-3" && o.issues[1].key == "PROJ-2" && o.issues[2].key == "PROJ-1";
  }

  /** The calls of the PROJ-3 walk against the service without PROJ-2. */
  lemma TraceWithGap(prefix: string, n: int, path: string, marshal: Marshal, files: map<string, Bytes>)
    requires prefix == "PROJ" && n == 3
    requires forall issue :: marshal(issue).Some?
    ensures StoredNames(Walk(prefix, n, path, ServiceWithGap, marshal, WritableDir, files).trace)
         == {FileName(path, "PROJ-3"), FileName(path, "PROJ-1")}
  {
    var client: Client, canWrite: string -> bool := ServiceWithGap, WritableDir;
    var i1, i3 := TestIssue("PROJ-1"), TestIssue("PROJ-3");
    ProjCandidateKeys();
    assert client("PROJ-1") == Some(i1) && client("PROJ-2") == None && client("PROJ-3") == Some(i3);
    var o := Walk(prefix, n, path, client, marshal, canWrite, files);
    var w3 := WriteSpec(marshal, canWrite, path, i3, files);
    var o2 := Walk(prefix, n - 1, path, client, marshal, canWrite, w3.files);
    var o1 := Walk(prefix, n - 2, path, client, marshal, canWrite, w3.files);
    var w1 := WriteSpec(marshal, canWrite, path, i1, w3.files);
    assert Walk(prefix, n - 3, path, client, marshal, canWrite, w1.files).trace == [];
    var c3, c2, c1 := [Retrieve("PROJ-3"), Store(path, i3)], [Retrieve("PROJ-2")], [Retrieve("PROJ-1"), Store(path, i1)];
    assert o1.trace == c1;
    assert o2.trace == c2 + o1.trace;
    assert o.trace == c3 + o2.trace;
    StoredNamesConcat(c3, o2.trace);
    StoredNamesConcat(c2, o1.trace);
    StoredOfPair("PROJ-3", path, i3);
    StoredOfPair("PROJ-1", path, i1);
    assert StoredNames(c2) == {};
  }

  lemma StoredOfPair(key: string, path: string, issue: Issue)
    ensures StoredNames([Retrieve(key), Store(path, issue)]) == {FileName(path, issue.key)}
  {
    var c := [Retrieve(key), Store(path, issue)];
    assert c[1..] == [Store(path, issue)] && c[1..][1..] == [];
    assert StoredNames(c[1..]) == {FileName(path, issue.key)} + StoredNames([]);
  }

  /** Ending key PROJ-3 with PROJ-2 missing: [PROJ-3, PROJ-1], no error, no file for PROJ-2. */
  lemma ScenarioSkipsMissing(path: string, marshal: Marshal, files: map<string, Bytes>)
    requires forall issue :: marshal(issue).Some?
    requires FileName(path, "PROJ-2") !in files
    ensures var o := FetchSpec("PROJ-3", path, ServiceWithGap, marshal, WritableDir, files);
      && o.err == None
      && o.issues == [TestIssue("PROJ-3"), TestIssue("PROJ-1")]
      && FileName(path, "PROJ-1") in o.files && FileName(path, "PROJ-3") in o.files
      && FileName(path, "PROJ-2") !in o.files
  {
    ProjCandidateKeys();
    FetchIsWalk("PROJ-3", "PROJ", 3, path, ServiceWithGap, marshal, WritableDir, files);
    SkipsMissingWalk("PROJ", 3, path, marshal, files);
  }

  lemma SkipsMissingWalk(prefix: string, n: int, path: string, marshal: Marshal, files: map<string, Bytes>)
    requires prefix == "PROJ" && n == 3
    requires forall issue :: marshal(issue).Some?
    requires FileName(path, "PROJ-2") !in files
    ensures var o := Walk(prefix, n, path, ServiceWithGap, marshal, WritableDir, files);
      && o.err == None
      && o.issues == [TestIssue("PROJ-3"), TestIssue("PROJ-1")]
      && FileName(path, "PROJ-1") in o.files && FileName(path, "PROJ-3") in o.files
      && FileName(path, "PROJ-2") !in o.files
  {
    RetrievedWithGap(prefix, n);
    WalkWithWritableDir(prefix, n, path, ServiceWithGap, marshal, files);
    var o := Walk(prefix, n, path, ServiceWithGap, marshal, WritableDir, files);
    assert o.issues[0].key == "PROJ-3" && o.issues[1].key == "PROJ-1";
    TraceWithGap(prefix, n, path, marshal, files);
    WalkKeepsOtherFiles(prefix, n, path, ServiceWithGap, marshal, WritableDir, files);
    FileNameInjective(path, "PROJ-2", "PROJ-1");
    FileNameInjective(path, "PROJ-2", "PROJ-3");
  }

  /** Against a service that has nothing, a walk asks for every candidate and changes nothing. */
  lemma {:induction false} WalkEmptyService(prefix: string, n: int, path: string, marshal: Marshal,
                                             canWrite: string -> bool, files: map<string, Bytes>)
    ensures var o := Walk(prefix, n, path, EmptyService, marshal, canWrite, files);
      var cands := Candidates(prefix, n);
      && o.err == None && o.issues == [] && o.files == files
      && |o.trace| == |cands|
      && (forall i :: 0 <= i < |o.trace| ==> o.trace[i] == Retrieve(cands[i]))
    decreases n
  {
    if n >= 1 {
      var key := FormatKey(prefix, n);
      var rest := Walk(prefix, n - 1, path, EmptyService, marshal, canWrite, files);
      var cands := Candidates(prefix, n - 1);
      assert Candidates(prefix, n) == [key] + cands;
      WalkEmptyService(prefix, n - 1, path, marshal, canWrite, files);
      assert Walk(prefix, n, path, EmptyService, marshal, canWrite, files).trace == [Retrieve(key)] + rest.trace;
    }
  }

  /** Ending key PROJ-5 and nothing on the service: empty result, no error, no file touched. */
  lemma ScenarioNothingFound(path: string, marshal: Marshal, canWrite: string -> bool, files: map<string, Bytes>)
    ensures var o := FetchSpec("PROJ-5", path, EmptyService, marshal, canWrite, files);
      && o.err == None && o.issues == [] && o.files == files
      && o.trace == [Retrieve("PROJ-5"), Retrieve("PROJ-4"), Retrieve("PROJ-3"), Retrieve("PROJ-2"), Retrieve("PROJ-1")]
  {
    ProjCandidateKeys();
    FetchIsWalk("PROJ-5", "PROJ", 5, path, EmptyService, marshal, canWrite, files);
    TraceOfEmptyService("PROJ", 5, path, marshal, canWrite, files);
  }

  lemma TraceOfEmptyService(prefix: string, n: int, path: string, marshal: Marshal, canWrite: string -> bool,
                            files: map<string, Bytes>)
    requires prefix == "PROJ" && n == 5
    ensures var o := Walk(prefix, n, path, EmptyService, marshal, canWrite, files);
      && o.err == None && o.issues == [] && o.files == files
      && o.trace == [Retrieve("PROJ-5"), Retrieve("PROJ-4"), Retrieve("PROJ-3"), Retrieve("PROJ-2"), Retrieve("PROJ-1")]
  {
    WalkEmptyService(prefix, n, path, marshal, canWrite, files);
    var o := Walk(prefix, n, path, EmptyService, marshal, canWrite, files);
    CandidatesAt(prefix, n);
    ProjCandidateKeys();
    assert FormatKey("PROJ", 4) == "PROJ-4";
    assert o.trace[0] == Retrieve("PROJ-5") && o.trace[1] == Retrieve("PROJ-4") && o.trace[2] == Retrieve("PROJ-3");
    assert o.trace[3] == Retrieve("PROJ-2") && o.trace[4] == Retrieve("PROJ-1");
  }

  /** Ending key INVALID_KEY: a parse error, no retrieval, no file. */
  lemma ScenarioInvalidKey(to: string, path: string, client: Client, marshal: Marshal, canWrite: string -> bool,
                           files: map<string, Bytes>)
    requires to == "INVALID_KEY"
    ensures FetchSpec(to, path, client, marshal, canWrite, files) == Outcome([], Some(BadKey(to, InvalidFormat)), [], files)
  {
    FetchUnhyphenated(to, path, client, marshal, canWrite, files);
  }

  lemma FetchUnhyphenated(to: string, path: string, client: Client, marshal: Marshal, canWrite: string -> bool,
                          files: map<string, Bytes>)
    requires '-' !in to
    ensures FetchSpec(to, path, client, marshal, canWrite, files) == Outcome([], Some(BadKey(to, InvalidFormat)), [], files)
  {
    ParseRejectsNoHyphen(to);
  }

  /**
   * Ending key PROJ-1 against a directory that cannot be written: the one
   * retrieval is followed by the failing write of the issue the service
   * returned, under that issue's own key, and the result is nil.
   */
  lemma ScenarioWriteError(path: string, marshal: Marshal, files: map<string, Bytes>)
    requires forall issue :: marshal(issue).Some?
    ensures var o := FetchSpec("PROJ-1", path, ConstantService, marshal, MissingDir, files);
      && o.issues == []
      && o.err == Some(WriteFailure("PROJ-1", path, WriteFailed(FileName(path, "PROJ-1"))))
      && o.trace == [Retrieve("PROJ-1"), Store(path, TestIssue("PROJ-1"))]
      && o.files == files
  {
    ProjCandidateKeys();
    FetchIsWalk("PROJ-1", "PROJ", 1, path, ConstantService, marshal, MissingDir, files);
    WriteErrorWalk("PROJ", 1, path, marshal, files);
  }

  lemma WriteErrorWalk(prefix: string, n: int, path: string, marshal: Marshal, files: map<string, Bytes>)
    requires prefix == "PROJ" && n == 1
    requires forall issue :: marshal(issue).Some?
    ensures var o := Walk(prefix, n, path, ConstantService, marshal, MissingDir, files);
      && o.issues == []
      && o.err == Some(WriteFailure("PROJ-1", path, WriteFailed(FileName(path, "PROJ-1"))))
      && o.trace == [Retrieve("PROJ-1"), Store(path, TestIssue("PROJ-1"))]
      && o.files == files
  {
    ProjCandidateKeys();
    var issue := TestIssue("PROJ-1");
    assert ConstantService(FormatKey(prefix, n)) == Some(issue);
    var w := WriteSpec(marshal, MissingDir, path, issue, files);
    assert w.err == Some(WriteFailed(FileName(path, "PROJ-1"))) && w.files == files;
  }
}
