/**
 * The target enumeration loop of the scanner's main function: every line of
 * the list file becomes one scan task, or one task per configured port.
 */
module Targets {
  import opened GoText
  import opened Sequences

  /** A scan task: the host and the port text handed to a worker. */
  datatype ListItem = ListItem(ip: string, port: string)

  /** One task per configured port, in port order, the port as decimal text. */
  function HostTasks(host: string, ports: seq<int>): (tasks: seq<ListItem>)
    ensures |tasks| == |ports|
  {
    if ports == [] then []
    else HostTasks(host, ports[..|ports| - 1]) + [ListItem(host, FormatInt(ports[|ports| - 1]))]
  }

  /** The k-th task of a host carries the host and the k-th port as decimal text. */
  lemma {:induction false} HostTasksAt(host: string, ports: seq<int>, k: nat)
    requires k < |ports|
    ensures HostTasks(host, ports)[k] == ListItem(host, FormatInt(ports[k]))
    decreases |ports|
  {
    if k < |ports| - 1 {
      HostTasksAt(host, ports[..|ports| - 1], k);
    }
  }

  /**
   * The tasks of one line: a line with exactly two comma fields is a host
   * and its own port; any other line takes its first comma field as the
   * host and is crossed with the configured ports.
   */
  function LineTasks(line: string, ports: seq<int>): seq<ListItem> {
    var fields := Split(line, ',');
    if |fields| == 2 then [ListItem(fields[0], fields[1])]
    else HostTasks(fields[0], ports)
  }

  /** Each line's tasks, as one block per line. */
  function LineBlocks(lines: seq<string>, ports: seq<int>): (blocks: seq<seq<ListItem>>)
    ensures |blocks| == |lines|
    ensures forall k :: 0 <= k < |lines| ==> blocks[k] == LineTasks(lines[k], ports)
  {
    seq(|lines|, k requires 0 <= k < |lines| => LineTasks(lines[k], ports))
  }

  /** The tasks of all lines, line by line in file order. */
  function Tasks(lines: seq<string>, ports: seq<int>): seq<ListItem> {
    Flatten(LineBlocks(lines, ports))
  }

  /** One more line adds that line's tasks at the end. */
  lemma TasksSnoc(lines: seq<string>, last: string, ports: seq<int>)
    ensures Tasks(lines + [last], ports) == Tasks(lines, ports) + LineTasks(last, ports)
  {
    var blocks := LineBlocks(lines + [last], ports);
    assert blocks[..|lines|] == LineBlocks(lines, ports);
  }

  /** The inner loop of the enumeration: one job per configured port for a host. */
  method PushHostTasks(jobs: seq<ListItem>, host: string, ports: seq<int>) returns (grown: seq<ListItem>)
    ensures grown == jobs + HostTasks(host, ports)
  {
    grown := jobs;
    var j := 0;
    while j < |ports|
      invariant 0 <= j <= |ports|
      invariant grown == jobs + HostTasks(host, ports[..j])
    {
      assert ports[..j + 1][..j] == ports[..j];
      grown := grown + [ListItem(host, FormatInt(ports[j]))];
      j := j + 1;
    }
    assert ports[..j] == ports;
  }

  /** The enumeration loop: pushes each line's tasks onto the job queue in order. */
  method Enumerate(lines: seq<string>, ports: seq<int>) returns (jobs: seq<ListItem>)
    ensures jobs == Tasks(lines, ports)
  {
    jobs := [];
    var i := 0;
    while i < |lines|
      invariant 0 <= i <= |lines|
      invariant jobs == Tasks(lines[..i], ports)
    {
      var line := lines[i];
      assert lines[..i + 1] == lines[..i] + [line];
      TasksSnoc(lines[..i], line, ports);
      var splittedData := Split(line, ',');
      if |splittedData| == 2 {
        jobs := jobs + [ListItem(splittedData[0], splittedData[1])];
      } else {
        jobs := PushHostTasks(jobs, splittedData[0], ports);
      }
      i := i + 1;
    }
    assert lines[..i] == lines;
  }

  // ---------------------------------------------------------------------------
  // What the enumeration promises

  /** A `host,port` line is one task, whatever ports are configured. */
  lemma ExplicitPortLine(host: string, port: string, ports: seq<int>)
    requires ',' !in host && ',' !in port
    ensures LineTasks(host + "," + port, ports) == [ListItem(host, port)]
  {
    assert host + "," + port == host + [','] + port;
    SplitPair(host, ',', port);
  }

  /** A bare host is one task per configured port, each port reading back as its number. */
  lemma BareHostLine(host: string, ports: seq<int>)
    requires ',' !in host
    requires forall k :: 0 <= k < |ports| ==> InInt64(ports[k])
    ensures |LineTasks(host, ports)| == |ports|
    ensures forall k :: 0 <= k < |ports| ==>
      LineTasks(host, ports)[k].ip == host && Atoi(LineTasks(host, ports)[k].port) == ports[k]
  {
    SplitWithoutSep(host, ',');
    forall k | 0 <= k < |ports|
      ensures LineTasks(host, ports)[k].ip == host && Atoi(LineTasks(host, ports)[k].port) == ports[k]
    {
      HostTasksAt(host, ports, k);
      AtoiFormat(ports[k]);
    }
  }

  /**
   * A line with no comma or with more than one is crossed with the ports;
   * its host is the text before its first comma.
   */
  lemma OtherLineHost(line: string, ports: seq<int>)
    requires multiset(line)[','] != 1
    ensures LineTasks(line, ports) == HostTasks(line[..IndexOf(line, ',')], ports)
  {
    SplitCount(line, ',');
  }

  /** Nothing is trimmed: an empty line gives one task with an empty host per port. */
  lemma EmptyLine(ports: seq<int>)
    ensures |LineTasks("", ports)| == |ports|
    ensures forall k :: 0 <= k < |ports| ==> LineTasks("", ports)[k].ip == ""
  {
    SplitWithoutSep("", ',');
    forall k | 0 <= k < |ports| ensures LineTasks("", ports)[k].ip == "" {
      HostTasksAt("", ports, k);
    }
  }

  /** Enumerating two blocks of lines is enumerating one after the other. */
  lemma TasksAppend(a: seq<string>, b: seq<string>, ports: seq<int>)
    ensures Tasks(a + b, ports) == Tasks(a, ports) + Tasks(b, ports)
  {
    assert LineBlocks(a + b, ports) == LineBlocks(a, ports) + LineBlocks(b, ports);
    FlattenAppend(LineBlocks(a, ports), LineBlocks(b, ports));
  }

  /** The number of lines that carry their own port. */
  function PairLines(lines: seq<string>): nat {
    if lines == [] then 0
    else PairLines(lines[..|lines| - 1]) + (if |Split(lines[|lines| - 1], ',')| == 2 then 1 else 0)
  }

  /** With no ports configured, only lines that carry their own port give tasks. */
  lemma {:induction false} NoPortsOnlyPairs(lines: seq<string>)
    ensures |Tasks(lines, [])| == PairLines(lines)
  {
    if lines != [] {
      var init, last := lines[..|lines| - 1], lines[|lines| - 1];
      NoPortsOnlyPairs(init);
      assert lines == init + [last];
      TasksSnoc(init, last, []);
    }
  }

  /** A pair line followed by a bare host, crossed with one port. */
  lemma TwoLines(host1: string, port1: string, host2: string, port: int)
    requires ',' !in host1 && ',' !in port1 && ',' !in host2
    ensures Tasks([host1 + "," + port1, host2], [port])
         == [ListItem(host1, port1), ListItem(host2, FormatInt(port))]
  {
    var first := host1 + "," + port1;
    ExplicitPortLine(host1, port1, [port]);
    SplitWithoutSep(host2, ',');
    TasksSnoc([], first, [port]);
    assert [first] == [] + [first];
    TasksSnoc([first], host2, [port]);
    assert [first, host2] == [first] + [host2];
    HostTasksAt(host2, [port], 0);
  }
}
