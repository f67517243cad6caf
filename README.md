# iot_detector scanning core, modelled in Dafny

iot_detector is a bulk HTTP(S) signature scanner written in Go. It reads a list
of targets and an nmap-style port argument. It checks each host:port for TCP
reachability and sends the configured HTTP request to each live one: once,
or with auto-scheme on (`-a`) once over `http://` and, when that does not
detect, once more over `https://`. Then it
reports which response bodies match a search pattern, given as a regular
expression or, if the pattern does not compile, as a literal string.

This project models the deterministic core of the scanner:

- `Ports` (ports.dfy) models the port-range expander `parsePorts`. It splits
  on `,`, expands `start-end` tokens as inclusive ranges, reads every other
  token as one port, and reads a malformed number as 0 (or as the largest
  int when its leading digits already overflow).
- `Targets` (targets.dfy) models the enumeration loop in `main`. Each list
  line becomes a `ListItem{ip, port}`: one item when the line has exactly two
  comma fields, and otherwise one item per configured port, with the port
  written as decimal text.
- `Patterns` (patterns.dfy) models `search_patterns` / `searchPatterns`: the
  regular-expression match, or literal substring containment when the pattern
  does not compile.
- `Probe` (probe.dfy) models `request`. It builds the URL and the body for
  POST and GET, rejects any other method, adds the headers, and classifies the
  reply as `[NO RESPONSE] => …`, `[WRONG RESPONSE]`, `[SUCCESS]` or
  `[NOT DETECTED]`.
- `Worker` (worker.dfy) models the body of `worker`: the liveness gate, the
  auto-scheme loop over `http://` then `https://` that stops at the first
  detection, and the reporting filter `status || VERBOSE`. It runs as one
  sequential fold over the job list.
- `GoText` (go_text.dfy) models the Go library behaviour that the code relies
  on: `strings.Split` with a one-character separator, `strings.Contains`,
  `strconv.Atoi` on a 64-bit platform with its error discarded (digits after
  the sign that overflow 2^64-1 saturate whatever follows them; otherwise a
  syntax error reads as 0 and an out-of-range number saturates) and
  `fmt.Sprint` of an int.
- `Sequences` and `Wrappers` hold a flatten helper and an `Option` type.

The network is an oracle value, `Probe.Network`, with three parts:

- `portOpen` stands for `port_check`, the TCP dial with a 1-second timeout;
- `urlParses` stands for the URL check inside `http.NewRequest`;
- `roundTrip` stands for `client.Do` with the 5-second timeout.

The regular-expression engine is also an oracle, `Patterns.RegexEngine`. It
says which patterns compile and whether a compiled pattern matches somewhere
in a text.

`main.go` and `utils.go` each contain a `parsePorts` and a pattern search
(`search_patterns` and `searchPatterns`) that behave identically: they
differ only in names and in utils.go's named result. Each is modelled once, so the
two versions are equal by construction. The table below cites lines from
both files.

The model follows the code, including these easily missed behaviours:

- An empty list line is not dropped. It gives one task with an empty host
  for every configured port.
- List lines are not trimmed.
- A task whose liveness check fails is reported in verbose mode with an
  empty answer, not with a "no response" tag.
- A line with three or more comma fields is treated as a bare host. Its host
  is the text before the first comma.

## Model

| member | source | states |
|---|---|---|
| GoText.Split | main.go:139 | `strings.Split` never returns an empty list, and its first piece is the text before the first separator |
| GoText.SplitCount | main.go:143-145 | there is one piece more than there are separators, so a token that holds `-` always has `bounds[0]` and `bounds[1]` |
| GoText.SplitPiecesFree | main.go:240 | no piece of a split holds the separator |
| GoText.JoinSplit | main.go:139 | joining the pieces with the separator gives back the text that was split |
| GoText.SplitJoin | utils.go:39 | splitting separator-free pieces joined by the separator gives back exactly those pieces |
| GoText.SplitPair | main.go:240-242 | `a,b` with comma-free `a` and `b` splits into exactly `[a, b]` |
| GoText.SplitTrailingSep | utils.go:39 | a trailing separator adds one empty piece at the end |
| GoText.ContainsIffOccurs | utils.go:16 | the `strings.Contains` scan is true exactly when the substring occurs at some position |
| GoText.ContainsChar | main.go:142 | `strings.Contains(r, "-")` is membership of `-` in `r` |
| GoText.Atoi | main.go:144-145 | `Atoi` with its error discarded always gives a 64-bit value; when the digits after the sign are worth more than 2^64-1 it gives the bound of the sign's direction whatever follows them; otherwise it gives 0 for every text outside Go's decimal syntax, and the number, saturated to 64 bits, for every text inside it |
| GoText.AtoiOverflowIgnoresRest | main.go:151 | digits worth more than 2^64-1 give the largest int whatever text follows them |
| GoText.AtoiFormat | main.go:246 | `Atoi` reads back `fmt.Sprint` of every 64-bit integer |
| Ports.RangeOf | main.go:147-149 | the counting loop's range has `end-start+1` elements when `start <= end` and none otherwise, and its k-th element is `start+k` |
| Ports.TokenPorts | main.go:150-152 | a token without `-` contributes exactly one port, its `Atoi` value |
| Ports.RangeTokenBounds | main.go:142-149 | a token holding `-` contributes the range from its first `-` piece to its second |
| Ports.AppendRange | utils.go:47-49 | the inner loop appends `start, start+1, …, end` to the port list |
| Ports.ParsePorts | main.go:132-157 | the loop's result is the token-by-token expansion of the argument, and the empty argument gives no ports (as at utils.go:35-37) |
| Ports.ExpandTokensAppend | main.go:141-154 | expansion concatenates the tokens' ports in token order, without deduplication, so lengths add up |
| Ports.PortSpecOfTokens | utils.go:39-55 | an argument made of comma-free tokens expands to the concatenation of their expansions |
| Ports.RangeToken | utils.go:42-49 | `lo-hi` followed by nothing or by `-…` expands to `Atoi(lo)..Atoi(hi)`, and segments after the second `-` are ignored |
| Ports.MalformedTokenIsZero | main.go:151-152 | a token without `-` that holds a character other than a digit or `+` becomes the single port 0, or the largest int when its leading digits already overflow 2^64-1 |
| Ports.OverflowingToken | utils.go:50-52 | a dash-free token whose leading digits overflow 2^64-1 is the single port 2^63-1, whatever follows |
| Ports.OverflowingArgument | main.go:139-153 | a port argument such as `99999999999999999999x` is the single port 2^63-1 |
| Ports.EmptyTokenIsZero | utils.go:50-52 | an empty token becomes the single port 0 |
| Ports.TrailingComma | utils.go:39-53 | a trailing comma appends one port 0 |
| Ports.LeadingComma | main.go:139-153 | a leading comma puts one port 0 in front |
| Ports.SingleArgument | main.go:139-153 | an argument that is one token without `,` or `-` is the one port `Atoi` reads from it |
| Ports.ListArgument | utils.go:39-54 | an argument `a,b` of two tokens without `-` is the two ports `Atoi(a)`, `Atoi(b)` in that order |
| Ports.RangeArgument | utils.go:42-49 | an argument `lo-hi` is every port from `Atoi(lo)` to `Atoi(hi)` |
| Ports.SinglePort | main.go:150-152 | a port written in decimal, as in `-p 22`, is that one port |
| Ports.PortList | main.go:139-154 | two ports written `p,q`, as in `-p 80,443`, are the ports p and q in that order |
| Ports.PortRange | main.go:142-149 | a range written `lo-hi`, as in `-p 20-22`, is every port from lo to hi, and nothing when lo > hi |
| Targets.HostTasks | main.go:245-248 | a bare host gives exactly one task per configured port |
| Targets.HostTasksAt | main.go:246 | the k-th task of a bare host has that host and the k-th port as decimal text |
| Targets.TasksSnoc | main.go:238-250 | one more line appends that line's tasks at the end of the job list |
| Targets.PushHostTasks | main.go:245-248 | the inner loop appends one job per port to the job list |
| Targets.Enumerate | main.go:236-250 | the loop pushes exactly the tasks of every line, line by line |
| Targets.ExplicitPortLine | main.go:240-243 | a `host,port` line gives exactly one task `{host, port}`, whatever the port list |
| Targets.BareHostLine | main.go:244-249 | a comma-free line gives one task per port with that host, and each port text reads back as its number |
| Targets.OtherLineHost | main.go:240-246 | a line with no comma or with several commas is crossed with the ports, and its host is the text before its first comma |
| Targets.EmptyLine | main.go:239-246 | an empty line gives one task per port, each with an empty host |
| Targets.TasksAppend | main.go:238-250 | enumerating two blocks of lines is enumerating one after the other |
| Targets.NoPortsOnlyPairs | main.go:244-249 | with no ports configured, only lines with exactly two comma fields give tasks, one each |
| Targets.TwoLines | main.go:236-250 | `host1,port1` then `host2` with one port give `{host1, port1}` then `{host2, port}` |
| Patterns.SearchPatterns | main.go:124-130 | a pattern that does not compile is true exactly when it occurs literally in the text, and a compiled one gives the engine's unanchored match |
| Patterns.LiteralFallbackFinds | utils.go:14-17 | an uncompilable pattern is found wherever it occurs literally |
| Patterns.InvalidPatternExample | utils.go:13-19 | `[` does not compile, so it is searched for literally and is not found in `abc` |
| Probe.AsWrittenNeverFiresForHttpsTargets | main.go:80 | as written, the check never fires for an `https://host` target, but it does fire for the empty target |
| Probe.HttpsTargetsAreInsecure | main.go:80-86 | with the intended check, which the model of `request` does not use, every `https://` target would get a transport that skips certificate verification |
| Probe.HttpsProbeVerifiesCertificates | main.go:80-98 | the request built for an `https://` target keeps certificate verification on, and the one built for the empty target switches it off |
| Probe.Outgoing | main.go:88-108 | the request is built only for POST and GET; POST sends `target:port+path` with the data as body; GET adds `?data` only when the data is non-empty and has no body; the request carries every header; it skips certificate verification exactly when the check at line 80, as written, fires |
| Probe.Classify | main.go:110-121 | a transport error gives `[NO RESPONSE] => ` plus the error, a status other than 200 gives `[WRONG RESPONSE]`, and a 200 gives `[SUCCESS]` exactly when the pattern matches the body (`[NOT DETECTED]` otherwise); the flag is true only with `[SUCCESS]` |
| Probe.ProbeResult | main.go:79-122 | an unsupported method gives `[WRONG METHOD]`; a URL the client refuses gives `[ERROR CONNECT]`; otherwise the answer is the classification of the reply to the built request; a detection implies the URL parsed, the server answered 200, and the body matched |
| Probe.WrongMethodSendsNothing | main.go:99-101 | an unsupported method gives the same answer whatever the network does, so no request is sent |
| Probe.AddHeaders | main.go:106-108 | the header loop adds every descriptor header, with its one value, and no other header |
| Probe.SendRequest | main.go:79-122 | the imperative request computes exactly the probe result |
| Worker.TrySchemes | main.go:167-174 | the auto-scheme loop reports a detection only with `[SUCCESS]` |
| Worker.SchemesDetectIffAny | main.go:168-174 | the auto-scheme loop detects exactly when the probe with some scheme detects |
| Worker.SchemesFirstDetection | main.go:168-173 | the loop stops at the first detecting scheme, and its answer is that scheme's |
| Worker.SchemesNoneDetect | main.go:168-174 | when no scheme detects, the last scheme's answer stands |
| Worker.HttpThenHttps | main.go:48 | with the fixed list, the `http://` answer is kept if it detects, and the `https://` answer otherwise |
| Worker.TrySchemesLoop | main.go:167-174 | the loop with its `break` computes exactly the auto-scheme result |
| Worker.TaskOutcome | main.go:164-178 | a closed port gives the answer `""` and status false; status is true exactly with `[SUCCESS]`, and only for a live port |
| Worker.Emitted | main.go:179-185 | a job is sent to the output iff it detected or verbose mode is on, and the result carries the job's ip and port, the worker's number and the job's answer |
| Worker.ReportSnoc | main.go:163-186 | one more job appends that job's emitted result |
| Worker.RunWorker | main.go:159-188 | the worker loop sends exactly the reported results of its jobs, in order |
| Worker.VerboseReportsEveryJob | main.go:179-185 | in verbose mode every job is reported exactly once, in job order, with its ip, its port and its answer |
| Worker.QuietReportsDetections | main.go:179-185 | without verbose mode, the number of results equals the number of detecting jobs, and every result is `[SUCCESS]` |
| Worker.ClosedPort | main.go:164-166 | a job whose port is closed is reported with an empty answer only in verbose mode |
| Worker.TwoHostScenario | main.go:163-185 | for the lines `host1,port1` and `host2`, with host1 live and matching and host2 down, there is one `[SUCCESS]` line, or two lines in verbose mode, the second with an empty answer |

## Left out

- Ports.ParsePorts: when a range's upper bound reads as 2^63-1, the Go loop's `port++` wraps around and never exits. The model returns the mathematical range instead. This also happens when Atoi saturates a longer number, as in `1-99999999999999999999x`.
- Probe.AddHeaders: `Header.Add` canonicalises header names (for example `x-a` becomes `X-A`). The model keeps the names as given, so two names that canonicalise alike are not merged into one multi-valued header.
- Probe.SendRequest: the transport swap at main.go:81-85 changes the HTTP client that all workers share, and the change persists. The model passes the certificate decision, made by the check as written, with each request instead, so a later request does not inherit an earlier swap. The idle-connection settings are left out.
- The HTTP client, URL parsing, response-body reading, the TLS handshake and timeouts are foreign library calls and I/O. They appear only through the `Network` oracle, which is a fixed function, so the same request always gets the same reply.
- Go's regular expressions (RE2) are not modelled. Compiling and matching are oracle functions of `RegexEngine`.
- `load_request_from_file` and `Request.loadRequestFromFile` (main.go:52-66, request.go:16-25) read a file and decode JSON. The descriptor is an input value, `Probe.Request`.
- `port_check` / `portCheck` (main.go:68-77, utils.go:22-31) is a TCP dial. It is the `portOpen` oracle.
- Goroutines, channels, `sync.WaitGroup`, the printer goroutine, flag parsing and reading the list file (main.go:190-235, 252-254) are concurrency and I/O. The pool is one sequential fold. The spawn loop starting at `i := 1` (so `-t N` gives N-1 workers) and `wg.Add` after `go` are not modelled. The output line format of the printer is not modelled.
- `bufio.Scanner` line splitting, including its line-length limit, is not modelled. The model takes the lines as a given sequence.
- Go strings are byte sequences, and the response body is `string` of arbitrary bytes (main.go:118). The model's strings are sequences of characters; nothing in the model depends on more than ASCII, and no encoding is modelled.
- Integers are those of a 64-bit Go build. Only Atoi saturation is modelled; a 32-bit build is not.

## Findings

| source | as written | input that shows it | evidently intended | confidence | as-written member | corrected member |
|---|---|---|---|---|---|---|
| main.go:80 | `strings.Contains("https", target)` asks whether the target occurs inside the word "https". | With auto-scheme on, the target `https://192.0.2.1` leaves certificate verification on, so a device with an untrusted certificate fails with a TLS error. The empty target turns verification off. | `strings.Contains(target, "https")`: the transport installed at lines 81-85 turns on `InsecureSkipVerify`, a TLS setting that has an effect only on https targets | high, by reading the Go library's argument order; not executed | Probe.AsWrittenNeverFiresForHttpsTargets | Probe.HttpsTargetsAreInsecure |
