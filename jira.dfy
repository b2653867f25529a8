/**
 * The backward fetcher of internal/jira/fetcher.go. `FetchBackward` parses
 * the ending key, then walks the candidate numbers from the ending number
 * down to 1: a failed retrieval is skipped, every retrieved issue is appended
 * to the result and written to `<path>/<key>.json`, and the first failed
 * write ends the run with a nil result.
 *
 * The run is specified by the function FetchSpec (the loop is Walk), which
 * also records a trace of the retrieval and write calls; the lemmas below
 * state the ordering, coverage and failure policy of that trace.
 */
module Jira {
  import opened Wrappers
  import opened Parser
  import opened GoJira
  import opened Os
  import opened Output

  /** One call the fetcher makes: a retrieval of a key, or a write of an issue into a directory. */
  datatype Event = Retrieve(key: string) | Store(dir: string, issue: Issue)

  /** The two errors FetchBackward returns: the ending key does not parse, or a write failed. */
  datatype FetchError =
    | BadKey(key: string, parseError: ParseError)
    | WriteFailure(key: string, dir: string, writeError: WriteError)

  /** The returned issues (nil is []), the error, the calls made, and the files afterwards. */
  datatype Outcome = Outcome(issues: seq<Issue>, err: Option<FetchError>, trace: seq<Event>, files: map<string, Bytes>)

  /** The outcome `o` preceded by iterations that fetched `issues` and made the calls `events`. */
  function After(issues: seq<Issue>, events: seq<Event>, o: Outcome): Outcome
  {
    Outcome(if o.err.None? then issues + o.issues else [], o.err, events + o.trace, o.files)
  }

  lemma AfterAfter(a: seq<Issue>, t: seq<Event>, b: seq<Issue>, u: seq<Event>, o: Outcome)
    ensures After(a, t, After(b, u, o)) == After(a + b, t + u, o)
  {
    assert (t + u) + o.trace == t + (u + o.trace);
    if o.err.None? {
      assert (a + b) + o.issues == a + (b + o.issues);
    }
  }

  /** The iterations of the loop from candidate `current` down to 1. */
  function Walk(prefix: string, current: int, path: string, client: Client, marshal: Marshal,
                canWrite: string -> bool, files: map<string, Bytes>): Outcome
    decreases current
  {
    if current < 1 then
      Outcome([], None, [], files)
    else
      var key := FormatKey(prefix, current);
      match client(key)
      case None =>
        After([], [Retrieve(key)], Walk(prefix, current - 1, path, client, marshal, canWrite, files))
      case Some(issue) =>
        var w := WriteSpec(marshal, canWrite, path, issue, files);
        if w.err.Some? then
          Outcome([], Some(WriteFailure(key, path, w.err.value)), [Retrieve(key), Store(path, issue)], w.files)
        else
          After([issue], [Retrieve(key), Store(path, issue)],
                Walk(prefix, current - 1, path, client, marshal, canWrite, w.files))
  }

  /** A whole run of FetchBackward(to, path) against the given service, encoder and file map. */
  function FetchSpec(to: string, path: string, client: Client, marshal: Marshal,
                     canWrite: string -> bool, files: map<string, Bytes>): Outcome
  {
    var parsed := ParseIssueKey(to);
    if parsed.err.Some? then
      Outcome([], Some(BadKey(to, parsed.err.value)), [], files)
    else
      Walk(parsed.prefix, parsed.number, path, client, marshal, canWrite, files)
  }

  // ---------------------------------------------------------------------------
  // Reference definitions the run is compared against

  /** The candidate keys, from `n` down to 1. */
  function Candidates(prefix: string, n: int): (keys: seq<string>)
    ensures |keys| == if n < 1 then 0 else n
    decreases n
  {
    if n < 1 then [] else [FormatKey(prefix, n)] + Candidates(prefix, n - 1)
  }

  /** The i-th candidate is the key of number n - i. */
  lemma {:induction false} CandidatesAt(prefix: string, n: int)
    ensures forall i :: 0 <= i < |Candidates(prefix, n)| ==> Candidates(prefix, n)[i] == FormatKey(prefix, n - i)
    decreases n
  {
    if n >= 1 {
      CandidatesAt(prefix, n - 1);
      var keys := Candidates(prefix, n);
      var rest := Candidates(prefix, n - 1);
      assert keys == [FormatKey(prefix, n)] + rest;
      forall i | 1 <= i < |keys| ensures keys[i] == FormatKey(prefix, n - i) {
        assert keys[i] == rest[i - 1] == FormatKey(prefix, (n - 1) - (i - 1));
      }
    }
  }

  /** The keys a trace asks the service for, in order. */
  function Requested(trace: seq<Event>): seq<string>
  {
    if trace == [] then []
    else (if trace[0].Retrieve? then [trace[0].key] else []) + Requested(trace[1..])
  }

  lemma {:induction false} RequestedConcat(a: seq<Event>, b: seq<Event>)
    ensures Requested(a + b) == Requested(a) + Requested(b)
  {
    if a == [] {
      assert a + b == b;
    } else {
      var ab := a + b;
      assert ab != [] && ab[0] == a[0] && ab[1..] == a[1..] + b;
      RequestedConcat(a[1..], b);
      var head := if a[0].Retrieve? then [a[0].key] else [];
      calc {
        Requested(ab);
        head + Requested(a[1..] + b);
        head + (Requested(a[1..]) + Requested(b));
        (head + Requested(a[1..])) + Requested(b);
      }
    }
  }

  /** The issues the service returns for the candidates, in candidate order, failures left out. */
  function Retrieved(client: Client, prefix: string, n: int): (issues: seq<Issue>)
    ensures |issues| <= if n < 1 then 0 else n
    decreases n
  {
    if n < 1 then []
    else
      (match client(FormatKey(prefix, n)) case Some(issue) => [issue] case None => [])
      + Retrieved(client, prefix, n - 1)
  }

  /** Every issue can be marshalled and its file written. */
  ghost predicate AllWritable(issues: seq<Issue>, marshal: Marshal, canWrite: string -> bool, path: string)
  {
    forall i :: 0 <= i < |issues| ==> marshal(issues[i]).Some? && canWrite(FileName(path, issues[i].key))
  }

  /**
   * The call protocol: every call is a retrieval, except that a retrieval
   * which returns an issue is followed at once by exactly one write of that
   * issue into `path`.
   */
  ghost predicate Paired(trace: seq<Event>, client: Client, path: string)
    decreases |trace|
  {
    trace == [] ||
    (trace[0].Retrieve? &&
      match client(trace[0].key)
      case None => Paired(trace[1..], client, path)
      case Some(issue) => |trace| >= 2 && trace[1] == Store(path, issue) && Paired(trace[2..], client, path))
  }

  /** The file names of the writes in a trace. */
  function StoredNames(trace: seq<Event>): set<string>
  {
    if trace == [] then {}
    else (if trace[0].Store? then {FileName(trace[0].dir, trace[0].issue.key)} else {}) + StoredNames(trace[1..])
  }

  lemma {:induction false} StoredNamesConcat(a: seq<Event>, b: seq<Event>)
    ensures StoredNames(a + b) == StoredNames(a) + StoredNames(b)
  {
    if a == [] {
      assert a + b == b;
    } else {
      var ab := a + b;
      assert ab != [] && ab[0] == a[0] && ab[1..] == a[1..] + b;
      StoredNamesConcat(a[1..], b);
    }
  }

  // ---------------------------------------------------------------------------
  // Properties of the loop

  /**
   * Retrieval is requested for the candidates in descending order, each once,
   * stopping early only on a write failure; with no write failure every
   * candidate from `n` down to 1 is requested.
   */
  lemma {:induction false} WalkRequests(prefix: string, n: int, path: string, client: Client, marshal: Marshal,
                                         canWrite: string -> bool, files: map<string, Bytes>)
    ensures var o := Walk(prefix, n, path, client, marshal, canWrite, files);
      var req := Requested(o.trace);
      && |req| <= |Candidates(prefix, n)|
      && req == Candidates(prefix, n)[..|req|]
      && (o.err.None? ==> req == Candidates(prefix, n))
    decreases n
  {
    if n >= 1 {
      var key := FormatKey(prefix, n);
      var cands := Candidates(prefix, n - 1);
      assert Candidates(prefix, n) == [key] + cands;
      assert Requested([Retrieve(key)]) == [key];
      match client(key)
      case None =>
        var rest := Walk(prefix, n - 1, path, client, marshal, canWrite, files);
        assert Walk(prefix, n, path, client, marshal, canWrite, files).trace == [Retrieve(key)] + rest.trace;
        WalkRequests(prefix, n - 1, path, client, marshal, canWrite, files);
        RequestedConcat([Retrieve(key)], rest.trace);
        ConsPrefix(key, Requested(rest.trace), cands);
      case Some(issue) =>
        var w := WriteSpec(marshal, canWrite, path, issue, files);
        var pair := [Retrieve(key), Store(path, issue)];
        assert Requested(pair) == [key] by {
          RequestedConcat([Retrieve(key)], [Store(path, issue)]);
          assert pair == [Retrieve(key)] + [Store(path, issue)];
        }
        if w.err.None? {
          var rest := Walk(prefix, n - 1, path, client, marshal, canWrite, w.files);
          assert Walk(prefix, n, path, client, marshal, canWrite, files).trace == pair + rest.trace;
          WalkRequests(prefix, n - 1, path, client, marshal, canWrite, w.files);
          RequestedConcat(pair, rest.trace);
          ConsPrefix(key, Requested(rest.trace), cands);
        } else {
          assert Walk(prefix, n, path, client, marshal, canWrite, files).trace == pair;
          ConsPrefix(key, [], cands);
        }
    }
  }

  lemma ConsPrefix(x: string, a: seq<string>, b: seq<string>)
    requires |a| <= |b| && a == b[..|a|]
    ensures [x] + a == ([x] + b)[..|a| + 1]
  {
  }

  /** Each successful retrieval causes exactly one write, into `path`, of the issue returned. */
  lemma {:induction false} WalkPaired(prefix: string, n: int, path: string, client: Client, marshal: Marshal,
                                       canWrite: string -> bool, files: map<string, Bytes>)
    ensures Paired(Walk(prefix, n, path, client, marshal, canWrite, files).trace, client, path)
    decreases n
  {
    if n >= 1 {
      var key := FormatKey(prefix, n);
      match client(key)
      case None =>
        var rest := Walk(prefix, n - 1, path, client, marshal, canWrite, files);
        WalkPaired(prefix, n - 1, path, client, marshal, canWrite, files);
        assert ([Retrieve(key)] + rest.trace)[1..] == rest.trace;
      case Some(issue) =>
        var w := WriteSpec(marshal, canWrite, path, issue, files);
        if w.err.None? {
          var rest := Walk(prefix, n - 1, path, client, marshal, canWrite, w.files);
          WalkPaired(prefix, n - 1, path, client, marshal, canWrite, w.files);
          assert ([Retrieve(key), Store(path, issue)] + rest.trace)[2..] == rest.trace;
        } else {
          assert [Retrieve(key), Store(path, issue)][2..] == [];
        }
    }
  }

  /**
   * Without a write failure the result is exactly the retrieved issues, in
   * descending candidate order; a write failure returns nil.
   */
  lemma {:induction false} WalkIssues(prefix: string, n: int, path: string, client: Client, marshal: Marshal,
                                       canWrite: string -> bool, files: map<string, Bytes>)
    ensures var o := Walk(prefix, n, path, client, marshal, canWrite, files);
      && (o.err.None? ==> o.issues == Retrieved(client, prefix, n))
      && (o.err.Some? ==> o.issues == [] && o.err.value.WriteFailure? && o.err.value.dir == path)
    decreases n
  {
    if n >= 1 {
      var key := FormatKey(prefix, n);
      match client(key)
      case None =>
        WalkIssues(prefix, n - 1, path, client, marshal, canWrite, files);
      case Some(issue) =>
        var w := WriteSpec(marshal, canWrite, path, issue, files);
        if w.err.None? {
          WalkIssues(prefix, n - 1, path, client, marshal, canWrite, w.files);
        }
    }
  }

  /** The run fails exactly when some retrieved issue cannot be marshalled or its file written. */
  lemma {:induction false} WalkFailsIff(prefix: string, n: int, path: string, client: Client, marshal: Marshal,
                                         canWrite: string -> bool, files: map<string, Bytes>)
    ensures Walk(prefix, n, path, client, marshal, canWrite, files).err.None?
        <==> AllWritable(Retrieved(client, prefix, n), marshal, canWrite, path)
    decreases n
  {
    if n >= 1 {
      var key := FormatKey(prefix, n);
      var fetched := Retrieved(client, prefix, n);
      var rest := Retrieved(client, prefix, n - 1);
      match client(key)
      case None =>
        assert fetched == rest;
        WalkFailsIff(prefix, n - 1, path, client, marshal, canWrite, files);
      case Some(issue) =>
        assert fetched == [issue] + rest;
        AllWritableCons(issue, rest, marshal, canWrite, path);
        var w := WriteSpec(marshal, canWrite, path, issue, files);
        if w.err.None? {
          WalkFailsIff(prefix, n - 1, path, client, marshal, canWrite, w.files);
        }
    }
  }

  lemma AllWritableCons(issue: Issue, rest: seq<Issue>, marshal: Marshal, canWrite: string -> bool, path: string)
    ensures AllWritable([issue] + rest, marshal, canWrite, path)
        <==> marshal(issue).Some? && canWrite(FileName(path, issue.key)) && AllWritable(rest, marshal, canWrite, path)
  {
    var all := [issue] + rest;
    assert all[0] == issue;
    assert forall i :: 0 <= i < |rest| ==> all[i + 1] == rest[i];
  }

  /**
   * Files are only added or replaced, never removed, and any file not named
   * by a write in the trace is left as it was.
   */
  lemma {:induction false} WalkKeepsOtherFiles(prefix: string, n: int, path: string, client: Client, marshal: Marshal,
                                                canWrite: string -> bool, files: map<string, Bytes>)
    ensures var o := Walk(prefix, n, path, client, marshal, canWrite, files);
      && files.Keys <= o.files.Keys
      && o.files.Keys <= files.Keys + StoredNames(o.trace)
      && (forall f :: f in files && f !in StoredNames(o.trace) ==> o.files[f] == files[f])
    decreases n
  {
    if n >= 1 {
      var key := FormatKey(prefix, n);
      match client(key)
      case None =>
        var rest := Walk(prefix, n - 1, path, client, marshal, canWrite, files);
        WalkKeepsOtherFiles(prefix, n - 1, path, client, marshal, canWrite, files);
        StoredNamesConcat([Retrieve(key)], rest.trace);
      case Some(issue) =>
        var w := WriteSpec(marshal, canWrite, path, issue, files);
        var calls := [Retrieve(key), Store(path, issue)];
        assert StoredNames(calls) == {FileName(path, issue.key)} by {
          assert calls[1..] == [Store(path, issue)] && calls[1..][1..] == [];
          assert StoredNames(calls[1..]) == {FileName(path, issue.key)};
        }
        if w.err.None? {
          var rest := Walk(prefix, n - 1, path, client, marshal, canWrite, w.files);
          WalkKeepsOtherFiles(prefix, n - 1, path, client, marshal, canWrite, w.files);
          StoredNamesConcat(calls, rest.trace);
        }
    }
  }

  /** A walk never removes a file. */
  lemma {:induction false} WalkGrowsKeys(prefix: string, n: int, path: string, client: Client, marshal: Marshal,
                                          canWrite: string -> bool, files: map<string, Bytes>)
    ensures files.Keys <= Walk(prefix, n, path, client, marshal, canWrite, files).files.Keys
    decreases n
  {
    if n >= 1 {
      match client(FormatKey(prefix, n))
      case None =>
        WalkGrowsKeys(prefix, n - 1, path, client, marshal, canWrite, files);
      case Some(issue) =>
        var w := WriteSpec(marshal, canWrite, path, issue, files);
        WriteSpecOutcome(marshal, canWrite, path, issue, files);
        WalkGrowsKeys(prefix, n - 1, path, client, marshal, canWrite, w.files);
    }
  }

  /** After a run without failure, every returned issue has its file `<path>/<key>.json`. */
  lemma {:induction false} WalkWritesEveryIssue(prefix: string, n: int, path: string, client: Client, marshal: Marshal,
                                                 canWrite: string -> bool, files: map<string, Bytes>)
    ensures var o := Walk(prefix, n, path, client, marshal, canWrite, files);
      o.err.None? ==> forall i :: 0 <= i < |o.issues| ==> FileName(path, o.issues[i].key) in o.files
    decreases n
  {
    if n >= 1 {
      var key := FormatKey(prefix, n);
      match client(key)
      case None =>
        WalkWritesEveryIssue(prefix, n - 1, path, client, marshal, canWrite, files);
      case Some(issue) =>
        var w := WriteSpec(marshal, canWrite, path, issue, files);
        if w.err.None? {
          WalkWritesEveryIssue(prefix, n - 1, path, client, marshal, canWrite, w.files);
          WrittenIssueKept(prefix, n, path, client, marshal, canWrite, files, issue);
        }
    }
  }

  /** The inductive step of WalkWritesEveryIssue, for a candidate whose issue was written. */
  lemma WrittenIssueKept(prefix: string, n: int, path: string, client: Client, marshal: Marshal,
                         canWrite: string -> bool, files: map<string, Bytes>, issue: Issue)
    requires n >= 1 && client(FormatKey(prefix, n)) == Some(issue)
    requires WriteSpec(marshal, canWrite, path, issue, files).err.None?
    requires var w := WriteSpec(marshal, canWrite, path, issue, files);
      var rest := Walk(prefix, n - 1, path, client, marshal, canWrite, w.files);
      rest.err.None? ==> forall i :: 0 <= i < |rest.issues| ==> FileName(path, rest.issues[i].key) in rest.files
    ensures var o := Walk(prefix, n, path, client, marshal, canWrite, files);
      o.err.None? ==> forall i :: 0 <= i < |o.issues| ==> FileName(path, o.issues[i].key) in o.files
  {
    var key := FormatKey(prefix, n);
    var w := WriteSpec(marshal, canWrite, path, issue, files);
    var rest := Walk(prefix, n - 1, path, client, marshal, canWrite, w.files);
    var o := Walk(prefix, n, path, client, marshal, canWrite, files);
    assert o == After([issue], [Retrieve(key), Store(path, issue)], rest);
    if rest.err.None? {
      WalkGrowsKeys(prefix, n - 1, path, client, marshal, canWrite, w.files);
      assert FileName(path, issue.key) in w.files;
      assert o.issues == [issue] + rest.issues && o.files == rest.files;
      forall i | 0 <= i < |o.issues| ensures FileName(path, o.issues[i].key) in o.files {
        if i > 0 { assert o.issues[i] == rest.issues[i - 1]; }
      }
    }
  }

  /**
   * A failed write ends the run: the trace ends with the retrieval of the
   * failing key and the one write of its issue, no key is requested after
   * it, and writing that issue again over the files left behind fails with
   * the reported error and changes nothing.
   */
  ghost predicate EndsAtFailedWrite(o: Outcome, path: string, client: Client, marshal: Marshal, canWrite: string -> bool)
  {
    o.err.Some? ==>
      && o.err.value.WriteFailure?
      && |o.trace| >= 2
      && o.trace[|o.trace| - 2] == Retrieve(o.err.value.key)
      && o.trace[|o.trace| - 1].Store? && o.trace[|o.trace| - 1].dir == path
      && client(o.err.value.key) == Some(o.trace[|o.trace| - 1].issue)
      && WriteSpec(marshal, canWrite, path, o.trace[|o.trace| - 1].issue, o.files)
           == WriteResult(Some(o.err.value.writeError), o.files)
      && |Requested(o.trace)| >= 1
      && Requested(o.trace)[|Requested(o.trace)| - 1] == o.err.value.key
  }

  /** The loop stops at the first failed write. */
  lemma {:induction false} WalkStopsAtFailedWrite(prefix: string, n: int, path: string, client: Client, marshal: Marshal,
                                                   canWrite: string -> bool, files: map<string, Bytes>)
    ensures EndsAtFailedWrite(Walk(prefix, n, path, client, marshal, canWrite, files), path, client, marshal, canWrite)
    decreases n
  {
    if n >= 1 {
      var key := FormatKey(prefix, n);
      match client(key)
      case None =>
        WalkStopsAtFailedWrite(prefix, n - 1, path, client, marshal, canWrite, files);
        EndsAtFailedWriteAfter([], [Retrieve(key)], Walk(prefix, n - 1, path, client, marshal, canWrite, files),
                               path, client, marshal, canWrite);
      case Some(issue) =>
        var w := WriteSpec(marshal, canWrite, path, issue, files);
        var pair := [Retrieve(key), Store(path, issue)];
        if w.err.None? {
          WalkStopsAtFailedWrite(prefix, n - 1, path, client, marshal, canWrite, w.files);
          EndsAtFailedWriteAfter([issue], pair, Walk(prefix, n - 1, path, client, marshal, canWrite, w.files),
                                 path, client, marshal, canWrite);
        } else {
          WriteSpecOutcome(marshal, canWrite, path, issue, files);
          assert Requested(pair) == [key] by {
            RequestedConcat([Retrieve(key)], [Store(path, issue)]);
            assert pair == [Retrieve(key)] + [Store(path, issue)];
          }
        }
    }
  }

  /** Iterations that come before the failing one do not change where the run ends. */
  lemma EndsAtFailedWriteAfter(issues: seq<Issue>, events: seq<Event>, o: Outcome,
                               path: string, client: Client, marshal: Marshal, canWrite: string -> bool)
    requires EndsAtFailedWrite(o, path, client, marshal, canWrite)
    ensures EndsAtFailedWrite(After(issues, events, o), path, client, marshal, canWrite)
  {
    if o.err.Some? {
      var a := After(issues, events, o);
      assert a.trace == events + o.trace;
      RequestedConcat(events, o.trace);
      assert a.trace[|a.trace| - 1] == o.trace[|o.trace| - 1] && a.trace[|a.trace| - 2] == o.trace[|o.trace| - 2];
      var r := Requested(o.trace);
      assert Requested(a.trace)[|Requested(a.trace)| - 1] == r[|r| - 1];
    }
  }

  /**
   * Every write the run completed left its file behind, holding the
   * marshalled issue, unless a later write in the run names the same file.
   */
  ghost predicate KeepsWrites(o: Outcome, marshal: Marshal)
  {
    forall i ::
      (0 <= i < |o.trace| && o.trace[i].Store? && (o.err.None? || i < |o.trace| - 1)
       && FileName(o.trace[i].dir, o.trace[i].issue.key) !in StoredNames(o.trace[i + 1..])) ==>
      HoldsWrite(o.files, o.trace[i], marshal)
  }

  /** The file of the write `e` is present and holds the marshalled issue. */
  ghost predicate HoldsWrite(files: map<string, Bytes>, e: Event, marshal: Marshal)
    requires e.Store?
  {
    var name := FileName(e.dir, e.issue.key);
    name in files && marshal(e.issue).Some? && files[name] == marshal(e.issue).value
  }

  /** Files are not rolled back: what the run wrote stays, after a failed write too. */
  lemma {:induction false} WalkKeepsWrittenFiles(prefix: string, n: int, path: string, client: Client, marshal: Marshal,
                                                  canWrite: string -> bool, files: map<string, Bytes>)
    ensures KeepsWrites(Walk(prefix, n, path, client, marshal, canWrite, files), marshal)
    decreases n
  {
    if n >= 1 {
      var key := FormatKey(prefix, n);
      match client(key)
      case None =>
        var rest := Walk(prefix, n - 1, path, client, marshal, canWrite, files);
        WalkKeepsWrittenFiles(prefix, n - 1, path, client, marshal, canWrite, files);
        KeepsWritesAfter([], [Retrieve(key)], rest, marshal);
      case Some(issue) =>
        var w := WriteSpec(marshal, canWrite, path, issue, files);
        if w.err.None? {
          var pair := [Retrieve(key), Store(path, issue)];
          var rest := Walk(prefix, n - 1, path, client, marshal, canWrite, w.files);
          WriteSpecOutcome(marshal, canWrite, path, issue, files);
          WalkKeepsWrittenFiles(prefix, n - 1, path, client, marshal, canWrite, w.files);
          WalkKeepsOtherFiles(prefix, n - 1, path, client, marshal, canWrite, w.files);
          assert pair[1..] == [Store(path, issue)] && pair[2..] == [];
          assert pair[2..] + rest.trace == rest.trace;
          KeepsWritesAfter([issue], pair, rest, marshal);
        }
    }
  }

  /**
   * Iterations before a walk keep their writes when each of their own writes
   * is still held at the end, unless written over later.
   */
  lemma KeepsWritesAfter(issues: seq<Issue>, events: seq<Event>, o: Outcome, marshal: Marshal)
    requires KeepsWrites(o, marshal)
    requires forall i ::
      (0 <= i < |events| && events[i].Store?
       && FileName(events[i].dir, events[i].issue.key) !in StoredNames(events[i + 1..] + o.trace)) ==>
      HoldsWrite(o.files, events[i], marshal)
    ensures KeepsWrites(After(issues, events, o), marshal)
  {
    var a := After(issues, events, o);
    assert a.trace == events + o.trace;
    forall i | 0 <= i < |a.trace| && a.trace[i].Store? && (a.err.None? || i < |a.trace| - 1)
               && FileName(a.trace[i].dir, a.trace[i].issue.key) !in StoredNames(a.trace[i + 1..])
      ensures HoldsWrite(a.files, a.trace[i], marshal)
    {
      if i < |events| {
        assert a.trace[i] == events[i] && a.trace[i + 1..] == events[i + 1..] + o.trace;
      } else {
        var j := i - |events|;
        assert a.trace[i] == o.trace[j] && a.trace[i + 1..] == o.trace[j + 1..];
      }
    }
  }

  // ---------------------------------------------------------------------------
  // The run as a whole

  /**
   * FetchBackward's contract. A key that does not parse returns nil and its
   * parse error, with no call made and no file touched. Otherwise, with
   * prefix p and ending number n: the keys requested are the candidates
   * p-n, p-(n-1), ... in that order, all of them unless a write failed;
   * every successful retrieval is written once; the run fails exactly when a
   * retrieved issue cannot be written, and then returns nil; otherwise it
   * returns the retrieved issues in descending candidate order, at most n,
   * each with its file. A failed write is the last call: no key is
   * requested after it. Files written before a failure stay, holding what
   * was written; no file the run does not write is changed.
   */
  lemma FetchBackwardContract(to: string, path: string, client: Client, marshal: Marshal,
                              canWrite: string -> bool, files: map<string, Bytes>)
    ensures var o := FetchSpec(to, path, client, marshal, canWrite, files);
      var parsed := ParseIssueKey(to);
      && (parsed.err.Some? ==>
            o.issues == [] && o.err == Some(BadKey(to, parsed.err.value)) && o.trace == [] && o.files == files)
      && (parsed.err.None? ==>
            var req := Requested(o.trace);
            var fetched := Retrieved(client, parsed.prefix, parsed.number);
            && |req| <= |Candidates(parsed.prefix, parsed.number)|
            && req == Candidates(parsed.prefix, parsed.number)[..|req|]
            && (o.err.None? ==> req == Candidates(parsed.prefix, parsed.number))
            && Paired(o.trace, client, path)
            && (o.err.None? <==> AllWritable(fetched, marshal, canWrite, path))
            && (o.err.None? ==> o.issues == fetched)
            && (o.err.Some? ==> o.issues == [] && o.err.value.WriteFailure?)
            && |o.issues| <= parsed.number
            && files.Keys <= o.files.Keys
            && (forall f :: f in files && f !in StoredNames(o.trace) ==> o.files[f] == files[f])
            && (o.err.None? ==> forall i :: 0 <= i < |o.issues| ==> FileName(path, o.issues[i].key) in o.files)
            && EndsAtFailedWrite(o, path, client, marshal, canWrite)
            && KeepsWrites(o, marshal))
  {
    var parsed := ParseIssueKey(to);
    if parsed.err.None? {
      var p, n := parsed.prefix, parsed.number;
      WalkRequests(p, n, path, client, marshal, canWrite, files);
      WalkPaired(p, n, path, client, marshal, canWrite, files);
      WalkIssues(p, n, path, client, marshal, canWrite, files);
      WalkFailsIff(p, n, path, client, marshal, canWrite, files);
      WalkKeepsOtherFiles(p, n, path, client, marshal, canWrite, files);
      WalkWritesEveryIssue(p, n, path, client, marshal, canWrite, files);
      WalkStopsAtFailedWrite(p, n, path, client, marshal, canWrite, files);
      WalkKeepsWrittenFiles(p, n, path, client, marshal, canWrite, files);
    }
  }

  /**
   * Each requested key parses back to the ending key's prefix and a number
   * between 1 and the ending number, the numbers strictly descending: no
   * retrieval outside the range, none repeated.
   */
  lemma RequestsDescendInRange(to: string, path: string, client: Client, marshal: Marshal,
                               canWrite: string -> bool, files: map<string, Bytes>)
    requires ParseIssueKey(to).err.None?
    ensures var parsed := ParseIssueKey(to);
      var req := Requested(FetchSpec(to, path, client, marshal, canWrite, files).trace);
      && (forall i :: 0 <= i < |req| ==>
            var k := ParseIssueKey(req[i]);
            k.err.None? && k.prefix == parsed.prefix && 1 <= k.number <= parsed.number && k.number == parsed.number - i)
      && (forall i, j :: 0 <= i < j < |req| ==> req[i] != req[j])
  {
    var parsed := ParseIssueKey(to);
    var p, n := parsed.prefix, parsed.number;
    var o := Walk(p, n, path, client, marshal, canWrite, files);
    assert FetchSpec(to, path, client, marshal, canWrite, files) == o;
    WalkRequests(p, n, path, client, marshal, canWrite, files);
    CandidatesParseBack(p, n);
    CandidatesDistinct(p, n);
    var req := Requested(o.trace);
    var cands := Candidates(p, n);
    assert forall i :: 0 <= i < |req| ==> req[i] == cands[i];
  }

  /** The candidate keys parse back to the prefix and their number. */
  lemma CandidatesParseBack(p: string, n: int)
    requires p != "" && '-' !in p && n <= MaxInt
    ensures var cands := Candidates(p, n);
      forall i :: 0 <= i < |cands| ==> ParseIssueKey(cands[i]) == ParsedKey(p, n - i, None)
  {
    var cands := Candidates(p, n);
    CandidatesAt(p, n);
    forall i | 0 <= i < |cands| ensures ParseIssueKey(cands[i]) == ParsedKey(p, n - i, None) {
      ParseFormatRoundTrip(p, n - i);
    }
  }

  /** No two candidate keys are equal. */
  lemma CandidatesDistinct(p: string, n: int)
    ensures var cands := Candidates(p, n);
      forall i, j :: 0 <= i < j < |cands| ==> cands[i] != cands[j]
  {
    var cands := Candidates(p, n);
    CandidatesAt(p, n);
    forall i, j | 0 <= i < j < |cands| ensures cands[i] != cands[j] {
      var ki, kj := cands[i], cands[j];
      assert ki == FormatKey(p, n - i) && kj == FormatKey(p, n - j);
      FormatKeyInjective(p, n - i, n - j);
    }
  }

  /** One loop iteration whose retrieval fails: the call is recorded and nothing else changes. */
  lemma SkipStep(spec: Outcome, fetched: seq<Issue>, trace: seq<Event>, prefix: string, current: int, path: string,
                 client: Client, marshal: Marshal, canWrite: string -> bool, files: map<string, Bytes>)
    requires current >= 1 && client(FormatKey(prefix, current)).None?
    requires spec == After(fetched, trace, Walk(prefix, current, path, client, marshal, canWrite, files))
    ensures spec == After(fetched, trace + [Retrieve(FormatKey(prefix, current))],
                          Walk(prefix, current - 1, path, client, marshal, canWrite, files))
  {
    var key := FormatKey(prefix, current);
    var rest := Walk(prefix, current - 1, path, client, marshal, canWrite, files);
    AfterAfter(fetched, trace, [], [Retrieve(key)], rest);
    assert fetched + [] == fetched;
  }

  /**
   * One loop iteration that retrieves `issue` and writes it: a failed write
   * ends the run with nil and the error, a successful one appends the issue.
   */
  lemma WriteStep(spec: Outcome, fetched: seq<Issue>, trace: seq<Event>, prefix: string, current: int, path: string,
                  client: Client, marshal: Marshal, canWrite: string -> bool, files: map<string, Bytes>, issue: Issue)
    requires current >= 1 && client(FormatKey(prefix, current)) == Some(issue)
    requires spec == After(fetched, trace, Walk(prefix, current, path, client, marshal, canWrite, files))
    ensures var key := FormatKey(prefix, current);
      var w := WriteSpec(marshal, canWrite, path, issue, files);
      var trace' := trace + [Retrieve(key)] + [Store(path, issue)];
      if w.err.Some? then
        spec == Outcome([], Some(WriteFailure(key, path, w.err.value)), trace', w.files)
      else
        spec == After(fetched + [issue], trace', Walk(prefix, current - 1, path, client, marshal, canWrite, w.files))
  {
    var key := FormatKey(prefix, current);
    var w := WriteSpec(marshal, canWrite, path, issue, files);
    var calls := [Retrieve(key), Store(path, issue)];
    assert trace + [Retrieve(key)] + [Store(path, issue)] == trace + calls;
    if w.err.None? {
      var rest := Walk(prefix, current - 1, path, client, marshal, canWrite, w.files);
      AfterAfter(fetched, trace, [issue], calls, rest);
    }
  }

  /** The fetcher holding a client; the JSON encoder is the one every Writer it makes uses. */
  class Fetcher {
    const client: Client
    const marshal: Marshal

    /** NewFetcher. */
    constructor (client: Client, marshal: Marshal)
      ensures this.client == client && this.marshal == marshal
    {
      this.client := client;
      this.marshal := marshal;
    }

    /**
     * FetchBackward(to, path): the issues it returns, its error, the calls it
     * made and the file map it leaves are those of FetchSpec.
     */
    method FetchBackward(to: string, path: string, fs: FileSystem)
      returns (issues: seq<Issue>, err: Option<FetchError>, ghost trace: seq<Event>)
      modifies fs
      ensures Outcome(issues, err, trace, fs.files) == FetchSpec(to, path, client, marshal, fs.canWrite, old(fs.files))
    {
      var parsed := ParseIssueKey(to);
      if parsed.err.Some? {
        return [], Some(BadKey(to, parsed.err.value)), [];
      }
      var prefix, endNum := parsed.prefix, parsed.number;
      ghost var spec := Walk(prefix, endNum, path, client, marshal, fs.canWrite, fs.files);
      var fetchedIssues: seq<Issue> := [];
      trace := [];
      var current := endNum;
      while current >= 1
        invariant current >= 0
        invariant spec == After(fetchedIssues, trace, Walk(prefix, current, path, client, marshal, fs.canWrite, fs.files))
        decreases current
      {
        ghost var files0 := fs.files;
        var issueKey := FormatKey(prefix, current);
        var got := client(issueKey);
        if got.None? {
          SkipStep(spec, fetchedIssues, trace, prefix, current, path, client, marshal, fs.canWrite, files0);
          trace := trace + [Retrieve(issueKey)];
          current := current - 1;
          continue;
        }
        var issue := got.value;
        WriteStep(spec, fetchedIssues, trace, prefix, current, path, client, marshal, fs.canWrite, files0, issue);
        trace := trace + [Retrieve(issueKey)];
        fetchedIssues := fetchedIssues + [issue];
        var writer := new Writer(marshal);
        trace := trace + [Store(path, issue)];
        var werr := writer.WriteToFile(fs, path, issue);
        if werr.Some? {
          return [], Some(WriteFailure(issueKey, path, werr.value)), trace;
        }
        current := current - 1;
      }
      assert fetchedIssues + [] == fetchedIssues && trace + [] == trace;
      return fetchedIssues, None, trace;
    }
  }
}
