/**
 * The body of a worker: for every job, the liveness gate, the HTTP probe
 * (trying both URL schemes in auto-scheme mode) and the reporting filter.
 * The pool of concurrent workers is modelled as one worker folding over the
 * job list.
 */
module Worker {
  import opened GoText
  import opened Sequences
  import opened Patterns
  import opened Probe
  import opened Targets

  /** The flags that steer a worker: -v (verbose) and -a (auto URL scheme). */
  datatype Config = Config(verbose: bool, autoScheme: bool)

  /** The schemes tried in auto-scheme mode, in this order. */
  const SchemeArray: seq<string> := ["http://", "https://"]

  /** One result line handed to the printer. */
  datatype OutputStruct = OutputStruct(threadId: int, ip: string, port: string, answer: string)

  /**
   * The auto-scheme loop: tries each scheme in turn against the same host
   * and port, stopping at the first detection; otherwise the last answer
   * stands (`last` when no scheme is left).
   */
  function TrySchemes(schemes: seq<string>, v: ListItem, req: Request, net: Network, engine: RegexEngine,
                      last: (string, bool)): (outcome: (string, bool))
    requires !last.1
    ensures outcome.1 ==> outcome.0 == Success
    ensures outcome.0 == Success ==> outcome.1 || last.0 == Success
    decreases |schemes|
  {
    if schemes == [] then last
    else
      var r := ProbeResult(schemes[0] + v.ip, v.port, req, net, engine);
      if r.1 then r else TrySchemes(schemes[1..], v, req, net, engine, r)
  }

  /** Whether the probe of `scheme + host` detects. */
  predicate SchemeDetects(scheme: string, v: ListItem, req: Request, net: Network, engine: RegexEngine) {
    ProbeResult(scheme + v.ip, v.port, req, net, engine).1
  }

  /** The auto-scheme loop detects exactly when some scheme detects. */
  lemma {:induction false} SchemesDetectIffAny(schemes: seq<string>, v: ListItem, req: Request, net: Network,
                                              engine: RegexEngine, last: (string, bool))
    requires !last.1
    ensures TrySchemes(schemes, v, req, net, engine, last).1
        <==> exists k :: 0 <= k < |schemes| && SchemeDetects(schemes[k], v, req, net, engine)
    decreases |schemes|
  {
    if schemes != [] {
      var r := ProbeResult(schemes[0] + v.ip, v.port, req, net, engine);
      if !r.1 {
        SchemesDetectIffAny(schemes[1..], v, req, net, engine, r);
        if exists k :: 0 <= k < |schemes| && SchemeDetects(schemes[k], v, req, net, engine) {
          var k :| 0 <= k < |schemes| && SchemeDetects(schemes[k], v, req, net, engine);
          assert schemes[1..][k - 1] == schemes[k];
        }
      }
    }
  }

  /** The answer of the auto-scheme loop is that of the first scheme that detects. */
  lemma {:induction false} SchemesFirstDetection(schemes: seq<string>, v: ListItem, req: Request, net: Network,
                                                engine: RegexEngine, last: (string, bool), k: nat)
    requires !last.1
    requires k < |schemes| && SchemeDetects(schemes[k], v, req, net, engine)
    requires forall j :: 0 <= j < k ==> !SchemeDetects(schemes[j], v, req, net, engine)
    ensures TrySchemes(schemes, v, req, net, engine, last) == ProbeResult(schemes[k] + v.ip, v.port, req, net, engine)
    decreases |schemes|
  {
    if k > 0 {
      var r := ProbeResult(schemes[0] + v.ip, v.port, req, net, engine);
      assert !SchemeDetects(schemes[0], v, req, net, engine);
      forall j | 0 <= j < k - 1 ensures !SchemeDetects(schemes[1..][j], v, req, net, engine) {
        assert schemes[1..][j] == schemes[j + 1];
      }
      SchemesFirstDetection(schemes[1..], v, req, net, engine, r, k - 1);
    }
  }

  /** When no scheme detects, the answer is the last scheme's. */
  lemma {:induction false} SchemesNoneDetect(schemes: seq<string>, v: ListItem, req: Request, net: Network,
                                            engine: RegexEngine, last: (string, bool))
    requires !last.1 && schemes != []
    requires forall j :: 0 <= j < |schemes| ==> !SchemeDetects(schemes[j], v, req, net, engine)
    ensures TrySchemes(schemes, v, req, net, engine, last)
         == ProbeResult(schemes[|schemes| - 1] + v.ip, v.port, req, net, engine)
    decreases |schemes|
  {
    var r := ProbeResult(schemes[0] + v.ip, v.port, req, net, engine);
    assert !SchemeDetects(schemes[0], v, req, net, engine);
    if |schemes| > 1 {
      forall j | 0 <= j < |schemes| - 1 ensures !SchemeDetects(schemes[1..][j], v, req, net, engine) {
        assert schemes[1..][j] == schemes[j + 1];
      }
      SchemesNoneDetect(schemes[1..], v, req, net, engine, r);
    }
  }

  /** With the fixed scheme list: the http:// answer if it detects, else the https:// answer. */
  lemma HttpThenHttps(v: ListItem, req: Request, net: Network, engine: RegexEngine)
    ensures TrySchemes(SchemeArray, v, req, net, engine, ("", false))
         == if SchemeDetects("http://", v, req, net, engine)
            then ProbeResult("http://" + v.ip, v.port, req, net, engine)
            else ProbeResult("https://" + v.ip, v.port, req, net, engine)
  {
    assert SchemeArray[1..] == ["https://"];
    assert SchemeArray[1..][1..] == [];
  }

  /** The answer and status of one job: liveness gate, then one or both schemes. */
  function TaskOutcome(v: ListItem, cfg: Config, req: Request, net: Network, engine: RegexEngine): (outcome: (string, bool))
    ensures !net.portOpen(v.ip, v.port) ==> outcome == ("", false)
    ensures outcome.1 <==> outcome.0 == Success
    ensures outcome.1 ==> net.portOpen(v.ip, v.port)
  {
    if !net.portOpen(v.ip, v.port) then ("", false)
    else if cfg.autoScheme then TrySchemes(SchemeArray, v, req, net, engine, ("", false))
    else ProbeResult(v.ip, v.port, req, net, engine)
  }

  /** What one job puts on the output channel: its result iff it detected or verbose is on. */
  function Emitted(threadNum: int, v: ListItem, cfg: Config, req: Request, net: Network, engine: RegexEngine)
    : (out: seq<OutputStruct>)
    ensures |out| <= 1
    ensures |out| == 1 <==> cfg.verbose || TaskOutcome(v, cfg, req, net, engine).1
    ensures |out| == 1 ==> out[0].ip == v.ip && out[0].port == v.port && out[0].threadId == threadNum
    ensures |out| == 1 ==> out[0].answer == TaskOutcome(v, cfg, req, net, engine).0
  {
    var (answer, status) := TaskOutcome(v, cfg, req, net, engine);
    if status || cfg.verbose then [OutputStruct(threadNum, v.ip, v.port, answer)] else []
  }

  function EmittedBlocks(threadNum: int, jobs: seq<ListItem>, cfg: Config, req: Request, net: Network,
                         engine: RegexEngine): (blocks: seq<seq<OutputStruct>>)
    ensures |blocks| == |jobs|
    ensures forall k :: 0 <= k < |jobs| ==> blocks[k] == Emitted(threadNum, jobs[k], cfg, req, net, engine)
  {
    seq(|jobs|, k requires 0 <= k < |jobs| => Emitted(threadNum, jobs[k], cfg, req, net, engine))
  }

  /** Everything a worker emits for a job list, in job order. */
  function Report(threadNum: int, jobs: seq<ListItem>, cfg: Config, req: Request, net: Network,
                  engine: RegexEngine): seq<OutputStruct>
  {
    Flatten(EmittedBlocks(threadNum, jobs, cfg, req, net, engine))
  }

  lemma ReportSnoc(threadNum: int, jobs: seq<ListItem>, v: ListItem, cfg: Config, req: Request, net: Network,
                   engine: RegexEngine)
    ensures Report(threadNum, jobs + [v], cfg, req, net, engine)
         == Report(threadNum, jobs, cfg, req, net, engine) + Emitted(threadNum, v, cfg, req, net, engine)
  {
    var blocks := EmittedBlocks(threadNum, jobs + [v], cfg, req, net, engine);
    assert blocks[..|jobs|] == EmittedBlocks(threadNum, jobs, cfg, req, net, engine);
  }

  /** worker: processes its jobs one by one and sends the results it reports. */
  method RunWorker(threadNum: int, jobs: seq<ListItem>, cfg: Config, req: Request, net: Network,
                   engine: RegexEngine) returns (output: seq<OutputStruct>)
    ensures output == Report(threadNum, jobs, cfg, req, net, engine)
  {
    output := [];
    var answer: string, status: bool;
    var i := 0;
    while i < |jobs|
      invariant 0 <= i <= |jobs|
      invariant output == Report(threadNum, jobs[..i], cfg, req, net, engine)
    {
      var v := jobs[i];
      assert jobs[..i + 1] == jobs[..i] + [v];
      ReportSnoc(threadNum, jobs[..i], v, cfg, req, net, engine);
      status := false;
      answer := "";
      if net.portOpen(v.ip, v.port) {
        if cfg.autoScheme {
          answer, status := TrySchemesLoop(v, req, net, engine);
        } else {
          answer, status := SendRequest(v.ip, v.port, req, net, engine);
        }
      }
      if status || cfg.verbose {
        output := output + [OutputStruct(threadNum, v.ip, v.port, answer)];
      }
      i := i + 1;
    }
    assert jobs[..i] == jobs;
  }

  /** The scheme loop of worker, with its early break on the first detection. */
  method TrySchemesLoop(v: ListItem, req: Request, net: Network, engine: RegexEngine)
    returns (answer: string, status: bool)
    ensures (answer, status) == TrySchemes(SchemeArray, v, req, net, engine, ("", false))
  {
    ghost var goal := TrySchemes(SchemeArray, v, req, net, engine, ("", false));
    answer, status := "", false;
    var s := 0;
    while s < |SchemeArray|
      invariant 0 <= s <= |SchemeArray|
      invariant !status
      invariant TrySchemes(SchemeArray[s..], v, req, net, engine, (answer, status)) == goal
    {
      ghost var previous := (answer, status);
      var host := SchemeArray[s] + v.ip;
      answer, status := SendRequest(host, v.port, req, net, engine);
      assert SchemeArray[s..][1..] == SchemeArray[s + 1..];
      if status {
        assert (answer, status) == TrySchemes(SchemeArray[s..], v, req, net, engine, previous);
        break;
      }
      s := s + 1;
    }
  }

  // ---------------------------------------------------------------------------
  // What a worker reports

  /** The number of jobs whose probe detects. */
  function Detections(jobs: seq<ListItem>, cfg: Config, req: Request, net: Network, engine: RegexEngine): nat {
    if jobs == [] then 0
    else Detections(jobs[..|jobs| - 1], cfg, req, net, engine)
         + (if TaskOutcome(jobs[|jobs| - 1], cfg, req, net, engine).1 then 1 else 0)
  }

  /** In verbose mode every job is reported once, in job order. */
  lemma {:induction false} VerboseReportsEveryJob(threadNum: int, jobs: seq<ListItem>, cfg: Config, req: Request,
                                                 net: Network, engine: RegexEngine)
    requires cfg.verbose
    ensures |Report(threadNum, jobs, cfg, req, net, engine)| == |jobs|
    ensures forall k :: 0 <= k < |jobs| ==>
      Report(threadNum, jobs, cfg, req, net, engine)[k].ip == jobs[k].ip &&
      Report(threadNum, jobs, cfg, req, net, engine)[k].port == jobs[k].port &&
      Report(threadNum, jobs, cfg, req, net, engine)[k].answer == TaskOutcome(jobs[k], cfg, req, net, engine).0
  {
    if jobs != [] {
      var init, v := jobs[..|jobs| - 1], jobs[|jobs| - 1];
      assert jobs == init + [v];
      ReportSnoc(threadNum, init, v, cfg, req, net, engine);
      VerboseReportsEveryJob(threadNum, init, cfg, req, net, engine);
    }
  }

  /** Without verbose, exactly the detecting jobs are reported, each as a success. */
  lemma {:induction false} QuietReportsDetections(threadNum: int, jobs: seq<ListItem>, cfg: Config, req: Request,
                                                 net: Network, engine: RegexEngine)
    requires !cfg.verbose
    ensures |Report(threadNum, jobs, cfg, req, net, engine)| == Detections(jobs, cfg, req, net, engine)
    ensures forall o :: o in Report(threadNum, jobs, cfg, req, net, engine) ==> o.answer == Success
  {
    if jobs != [] {
      var init, v := jobs[..|jobs| - 1], jobs[|jobs| - 1];
      assert jobs == init + [v];
      ReportSnoc(threadNum, init, v, cfg, req, net, engine);
      QuietReportsDetections(threadNum, init, cfg, req, net, engine);
    }
  }

  /** A job whose port is closed is reported, with an empty answer, only in verbose mode. */
  lemma ClosedPort(threadNum: int, v: ListItem, cfg: Config, req: Request, net: Network, engine: RegexEngine)
    requires !net.portOpen(v.ip, v.port)
    ensures Emitted(threadNum, v, cfg, req, net, engine)
         == if cfg.verbose then [OutputStruct(threadNum, v.ip, v.port, "")] else []
  {
  }

  /**
   * The whole pipeline on a list file holding `host1,port1` and a bare
   * `host2`, with one configured port: the first host is live and answers
   * 200 with a body the search pattern matches, the second is down.
   */
  lemma TwoHostScenario(threadNum: int, host1: string, port1: string, host2: string, port: int, verbose: bool,
                        req: Request, net: Network, engine: RegexEngine, body: string)
    requires ',' !in host1 && ',' !in port1 && ',' !in host2
    requires req.httpMethod == "GET" || req.httpMethod == "POST"
    requires net.portOpen(host1, port1) && !net.portOpen(host2, FormatInt(port))
    requires net.urlParses(Outgoing(host1, port1, req).value.url)
    requires net.roundTrip(Outgoing(host1, port1, req).value) == Replied(200, body)
    requires SearchPatterns(engine, body, req.search)
    ensures Report(threadNum, Tasks([host1 + "," + port1, host2], [port]), Config(verbose, false), req, net, engine)
         == if verbose
            then [OutputStruct(threadNum, host1, port1, Success), OutputStruct(threadNum, host2, FormatInt(port), "")]
            else [OutputStruct(threadNum, host1, port1, Success)]
  {
    var cfg := Config(verbose, false);
    var t1, t2 := ListItem(host1, port1), ListItem(host2, FormatInt(port));
    TwoLines(host1, port1, host2, port);
    assert TaskOutcome(t1, cfg, req, net, engine) == (Success, true);
    ReportSnoc(threadNum, [], t1, cfg, req, net, engine);
    assert [t1] == [] + [t1];
    ReportSnoc(threadNum, [t1], t2, cfg, req, net, engine);
    assert [t1, t2] == [t1] + [t2];
  }
}
