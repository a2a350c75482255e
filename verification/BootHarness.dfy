/**
 The boot test's recogniser of serial markers (tests/boot.py). It works on whatever chunks the
 pipe delivers; the verdict is that of the whole stream at once. The timing, the shutdown
 handshake and the exit status of the emulator are taken to be good.
 */
module BootHarness {
  import opened Machine

  type Bytes = seq<char>      // one character per byte

  const OUTPUT_LIMIT: nat := 1024 * 1024

  const RESULT_PREFIX: Bytes := "TEST_RESULT:"

  const MARKERS: seq<Bytes> := [
    "substrate: booting",
    "task: resources constructed",
    "task: cspaces and vspaces isolated",
    "task: capability isolation verified",
    "task: independent execution verified",
    "task: private memory isolation verified",
    "task: per-task IPC buffers verified",
    "ipc: basic request reply verified",
    "ipc: deferred badged replies verified",
    "ipc: capability transfer used and tracked",
    "fault: routes distinguished",
    "fault: VM context decoded",
    "fault: register control verified",
    "fault: VM recovery continued",
    "fault: unknown syscall decoded",
    "TEST_RESULT: PASS"]

  // One trailing carriage return is not part of a line.
  function Stripped(line: Bytes): Bytes {
    if line != [] && line[|line| - 1] == '\r' then line[..|line| - 1] else line
  }

  predicate IsImpostor(line: Bytes, markers: seq<Bytes>) {
    line !in markers && RESULT_PREFIX <= line
  }

  // The batch reading. The lines of a stream are what its newlines end; the rest is no line.
  function IndexOfNewline(s: Bytes): nat
    requires '\n' in s
    ensures IndexOfNewline(s) < |s| && s[IndexOfNewline(s)] == '\n' && '\n' !in s[..IndexOfNewline(s)]
  {
    if s[0] == '\n' then 0
    else
      var rest := s[1..];
      assert s == [s[0]] + rest;
      assert s[..1 + IndexOfNewline(rest)] == [s[0]] + rest[..IndexOfNewline(rest)];
      1 + IndexOfNewline(rest)
  }

  function Lines(s: Bytes): seq<Bytes>
    decreases |s|
  {
    if '\n' !in s then []
    else [Stripped(s[..IndexOfNewline(s)])] + Lines(s[IndexOfNewline(s) + 1..])
  }

  // The marker lines among some lines, in order.
  function MarkerLines(lines: seq<Bytes>, markers: seq<Bytes>): seq<Bytes> {
    if lines == [] then []
    else
      var before := MarkerLines(lines[..|lines| - 1], markers);
      var last := lines[|lines| - 1];
      if last in markers then before + [last] else before
  }

  predicate NoImpostors(lines: seq<Bytes>, markers: seq<Bytes>) {
    forall i :: 0 <= i < |lines| ==> !IsImpostor(lines[i], markers)
  }

  // What the test asks of the whole serial output: every marker exactly once and in order, no
  // other result, and not too much of it.
  predicate Passes(stream: Bytes, markers: seq<Bytes>) {
    && |stream| <= OUTPUT_LIMIT
    && MarkerLines(Lines(stream), markers) == markers
    && NoImpostors(Lines(stream), markers)
  }

  function Flatten(chunks: seq<Bytes>): Bytes {
    if chunks == [] then [] else Flatten(chunks[..|chunks| - 1]) + chunks[|chunks| - 1]
  }

  // The streaming reading: how many markers were seen, or nothing after an unwanted line.
  function Advance(index: nat, line: Bytes, markers: seq<Bytes>): Option<nat> {
    if line in markers then
      if index >= |markers| || line != markers[index] then None else Some(index + 1)
    else if RESULT_PREFIX <= line then None
    else Some(index)
  }

  function Progress(lines: seq<Bytes>, markers: seq<Bytes>): Option<nat> {
    if lines == [] then Some(0)
    else match Progress(lines[..|lines| - 1], markers)
    case None => None
    case Some(index) => Advance(index, lines[|lines| - 1], markers)
  }

  // The count is right: `n` markers were accepted exactly if the marker lines are the first `n`.
  lemma {:induction false} ProgressCountsMarkers(lines: seq<Bytes>, markers: seq<Bytes>)
    ensures Progress(lines, markers).Some? <==> MarkerLines(lines, markers) <= markers && NoImpostors(lines, markers)
    ensures Progress(lines, markers).Some? ==> Progress(lines, markers).value == |MarkerLines(lines, markers)|
  {
    if lines != [] {
      var n := |lines| - 1;
      ProgressCountsMarkers(lines[..n], markers);
      assert lines == lines[..n] + [lines[n]];
      assert NoImpostors(lines, markers) <==> NoImpostors(lines[..n], markers) && !IsImpostor(lines[n], markers);
    }
  }

  lemma {:induction false} ProgressNeverRecovers(done: seq<Bytes>, more: seq<Bytes>, markers: seq<Bytes>)
    requires Progress(done, markers) == None
    ensures Progress(done + more, markers) == None
  {
    if more == [] {
      assert done + more == done;
    } else {
      var n := |more| - 1;
      ProgressNeverRecovers(done, more[..n], markers);
      assert (done + more)[..|done| + n] == done + more[..n];
    }
  }

  // A stream taken apart so far: the raw lines consumed, and what is pending.
  function Unlines(raw: seq<Bytes>): Bytes {
    if raw == [] then [] else raw[0] + ['\n'] + Unlines(raw[1..])
  }

  ghost predicate NewlineFree(raw: seq<Bytes>) {
    forall i :: 0 <= i < |raw| ==> '\n' !in raw[i]
  }

  function AllStripped(raw: seq<Bytes>): seq<Bytes> {
    seq(|raw|, i requires 0 <= i < |raw| => Stripped(raw[i]))
  }

  lemma {:induction false} FirstNewline(s: Bytes, n: nat)
    requires n < |s| && s[n] == '\n' && '\n' !in s[..n]
    ensures '\n' in s && IndexOfNewline(s) == n
  {
    if n > 0 {
      assert s[..n][0] == s[0];
      assert s[1..][..n - 1] == s[..n][1..];
      FirstNewline(s[1..], n - 1);
    }
  }

  lemma OneLine(line: Bytes, tail: Bytes)
    requires '\n' !in line
    ensures Lines(line + ['\n'] + tail) == [Stripped(line)] + Lines(tail)
  {
    var s := line + ['\n'] + tail;
    assert s[..|line|] == line;
    assert s[|line| + 1..] == tail;
    FirstNewline(s, |line|);
  }

  lemma StrippedHead(raw: seq<Bytes>)
    requires raw != []
    ensures AllStripped(raw) == [Stripped(raw[0])] + AllStripped(raw[1..])
  {
  }

  lemma {:induction false} LinesOfUnlines(raw: seq<Bytes>, rest: Bytes)
    requires NewlineFree(raw)
    ensures Lines(Unlines(raw) + rest) == AllStripped(raw) + Lines(rest)
  {
    if raw == [] {
      assert Unlines(raw) + rest == rest;
      assert AllStripped(raw) + Lines(rest) == Lines(rest);
    } else {
      LinesOfUnlines(raw[1..], rest);
      OneLine(raw[0], Unlines(raw[1..]) + rest);
      AppendAssociates(raw[0] + ['\n'], Unlines(raw[1..]), rest);
      AppendAssociates([Stripped(raw[0])], AllStripped(raw[1..]), Lines(rest));
      StrippedHead(raw);
    }
  }

  lemma {:induction false} UnlinesAppend(raw: seq<Bytes>, line: Bytes)
    ensures Unlines(raw + [line]) == Unlines(raw) + line + ['\n']
  {
    if raw != [] {
      UnlinesAppend(raw[1..], line);
      assert (raw + [line])[1..] == raw[1..] + [line];
    } else {
      assert (raw + [line])[1..] == [];
    }
  }

  lemma {:induction false} FlattenPrefix(chunks: seq<Bytes>, n: nat)
    requires n <= |chunks|
    ensures Flatten(chunks[..n]) <= Flatten(chunks)
  {
    if n < |chunks| {
      var m := |chunks| - 1;
      FlattenPrefix(chunks[..m], n);
      assert chunks[..m][..n] == chunks[..n];
    } else {
      assert chunks[..n] == chunks;
    }
  }

  // How a stream splits into consumed raw lines and a pending rest.
  ghost predicate Splits(stream: Bytes, raw: seq<Bytes>, pending: Bytes) {
    && stream == Unlines(raw) + pending
    && NewlineFree(raw)
  }

  // Stripping takes away one trailing carriage return, and nothing else.
  lemma StrippedIsExact(line: Bytes)
    ensures Stripped(line + ['\r']) == line
    ensures line == [] || line[|line| - 1] != '\r' ==> Stripped(line) == line
  {
    assert (line + ['\r'])[..|line|] == line;
  }

  ghost predicate NoTrailingReturns(raw: seq<Bytes>) {
    forall i :: 0 <= i < |raw| ==> raw[i] == [] || raw[i][|raw[i]| - 1] != '\r'
  }

  // The same lines with a carriage return before each newline.
  function WithReturns(raw: seq<Bytes>): seq<Bytes> {
    seq(|raw|, i requires 0 <= i < |raw| => raw[i] + ['\r'])
  }

  // Whichever way its lines end, a stream reads as exactly these lines.
  lemma LineEndingsDoNotMatter(raw: seq<Bytes>)
    requires NewlineFree(raw) && NoTrailingReturns(raw)
    ensures Lines(Unlines(raw)) == raw
    ensures Lines(Unlines(WithReturns(raw))) == raw
  {
    var ended := WithReturns(raw);
    forall i | 0 <= i < |raw|
      ensures Stripped(raw[i]) == raw[i] && Stripped(ended[i]) == raw[i]
      ensures '\n' !in ended[i]
    {
      StrippedIsExact(raw[i]);
    }
    LinesOfUnlines(raw, []);
    LinesOfUnlines(ended, []);
    assert Unlines(raw) + [] == Unlines(raw) && Unlines(ended) + [] == Unlines(ended);
    assert AllStripped(raw) == raw && AllStripped(ended) == raw;
    assert raw + Lines([]) == raw;
  }

  // So it passes exactly if these lines do, within the limit.
  lemma PassesByItsLines(raw: seq<Bytes>, markers: seq<Bytes>)
    requires NewlineFree(raw) && NoTrailingReturns(raw)
    requires |Unlines(raw)| <= OUTPUT_LIMIT && |Unlines(WithReturns(raw))| <= OUTPUT_LIMIT
    ensures Passes(Unlines(raw), markers) <==> MarkerLines(raw, markers) == markers && NoImpostors(raw, markers)
    ensures Passes(Unlines(WithReturns(raw)), markers) <==> Passes(Unlines(raw), markers)
  {
    LineEndingsDoNotMatter(raw);
  }

  lemma {:induction false} MarkersAreMarkerLines(markers: seq<Bytes>, n: nat)
    requires n <= |markers|
    ensures MarkerLines(markers[..n], markers) == markers[..n]
  {
    if n > 0 {
      MarkersAreMarkerLines(markers, n - 1);
      assert markers[..n][..n - 1] == markers[..n - 1];
      assert markers[..n] == markers[..n - 1] + [markers[n - 1]];
      assert markers[n - 1] in markers;
    }
  }

  // The markers alone, in order, pass with either line ending.
  lemma MarkersAlonePass(markers: seq<Bytes>)
    requires NewlineFree(markers) && NoTrailingReturns(markers)
    requires |Unlines(markers)| <= OUTPUT_LIMIT && |Unlines(WithReturns(markers))| <= OUTPUT_LIMIT
    ensures Passes(Unlines(markers), markers) && Passes(Unlines(WithReturns(markers)), markers)
  {
    PassesByItsLines(markers, markers);
    MarkersAreMarkerLines(markers, |markers|);
    assert markers[..|markers|] == markers;
    assert forall i :: 0 <= i < |markers| ==> markers[i] in markers;
  }

  // An unwanted line dooms every stream that starts with what was read.
  lemma UnwantedLineDooms(read: Bytes, raw: seq<Bytes>, pending: Bytes, stream: Bytes, markers: seq<Bytes>)
    requires Splits(read, raw, pending) && read <= stream && Progress(AllStripped(raw), markers) == None
    ensures !Passes(stream, markers)
  {
    var rest := stream[|Unlines(raw)|..];
    assert stream == Unlines(raw) + rest;
    LinesOfUnlines(raw, rest);
    ProgressNeverRecovers(AllStripped(raw), Lines(rest), markers);
    ProgressCountsMarkers(Lines(stream), markers);
  }

  // At the end of the stream the count decides.
  lemma CountDecides(stream: Bytes, raw: seq<Bytes>, pending: Bytes, markers: seq<Bytes>)
    requires Splits(stream, raw, pending) && '\n' !in pending && |stream| <= OUTPUT_LIMIT
    ensures Passes(stream, markers) <==> Progress(AllStripped(raw), markers) == Some(|markers|)
  {
    LinesOfUnlines(raw, pending);
    assert AllStripped(raw) + Lines(pending) == AllStripped(raw);
    ProgressCountsMarkers(AllStripped(raw), markers);
  }

  lemma OneMoreLine(raw: seq<Bytes>, line: Bytes, markers: seq<Bytes>)
    ensures AllStripped(raw + [line]) == AllStripped(raw) + [Stripped(line)]
    ensures Progress(AllStripped(raw + [line]), markers)
         == match Progress(AllStripped(raw), markers)
            case None => None
            case Some(index) => Advance(index, Stripped(line), markers)
  {
    var all := AllStripped(raw + [line]);
    assert all == AllStripped(raw) + [Stripped(line)];
    assert all[..|all| - 1] == AllStripped(raw);
  }

  // The next pending line moves over to the consumed ones.
  lemma TakeLine(read: Bytes, raw: seq<Bytes>, pending: Bytes, n: nat)
    requires Splits(read, raw, pending) && n < |pending| && pending[n] == '\n' && '\n' !in pending[..n]
    ensures Splits(read, raw + [pending[..n]], pending[n + 1..])
  {
    var line, rest := pending[..n], pending[n + 1..];
    UnlinesAppend(raw, line);
    assert pending == line + ['\n'] + rest;
    AppendAssociates(Unlines(raw), line + ['\n'], rest);
    AppendAssociates(Unlines(raw), line, ['\n']);
  }

  // Consumes the complete lines that are pending.
  method ConsumeLines(pending: Bytes, index: nat, markers: seq<Bytes>, ghost read: Bytes,
                      ghost raw: seq<Bytes>)
    returns (ok: bool, rest: Bytes, next: nat, ghost consumed: seq<Bytes>)
    requires Splits(read, raw, pending) && Progress(AllStripped(raw), markers) == Some(index)
    ensures Splits(read, consumed, rest)
    ensures ok ==> index <= next
    ensures ok ==> '\n' !in rest && Progress(AllStripped(consumed), markers) == Some(next)
    ensures !ok ==> Progress(AllStripped(consumed), markers) == None
  {
    rest, next, consumed := pending, index, raw;
    while '\n' in rest
      invariant Splits(read, consumed, rest) && Progress(AllStripped(consumed), markers) == Some(next)
      invariant index <= next
      decreases |rest|
    {
      var n := IndexOfNewline(rest);
      var line := rest[..n];
      TakeLine(read, consumed, rest, n);
      OneMoreLine(consumed, line, markers);
      consumed := consumed + [line];
      rest := rest[n + 1..];
      line := Stripped(line);
      if line in markers {
        if next >= |markers| || line != markers[next] {
          ok := false;
          return;
        }
        next := next + 1;
      } else if RESULT_PREFIX <= line {
        ok := false;
        return;
      }
    }
    ok := true;
  }

  lemma NextChunk(chunks: seq<Bytes>, i: nat, raw: seq<Bytes>, pending: Bytes)
    requires i < |chunks| && Splits(Flatten(chunks[..i]), raw, pending)
    ensures Flatten(chunks[..i + 1]) == Flatten(chunks[..i]) + chunks[i]
    ensures Flatten(chunks[..i + 1]) <= Flatten(chunks)
    ensures Splits(Flatten(chunks[..i + 1]), raw, pending + chunks[i])
  {
    assert chunks[..i + 1][..i] == chunks[..i];
    FlattenPrefix(chunks, i + 1);
    AppendAssociates(Unlines(raw), pending, chunks[i]);
  }

  lemma Truncated(read: Bytes, chunk: Bytes, n: nat, stream: Bytes)
    requires read + chunk <= stream && n <= |chunk|
    ensures read + chunk[..n] <= stream && |read + chunk| <= |stream|
  {
    assert (read + chunk)[..|read| + n] == read + chunk[..n];
  }

  // Reads chunk by chunk, each as the pipe delivers it, to the end of the output.
  method Recognise(chunks: seq<Bytes>, markers: seq<Bytes>) returns (passed: bool, serial: Bytes)
    requires markers != [] && forall i :: 0 <= i < |chunks| ==> chunks[i] != []
    ensures passed <==> Passes(Flatten(chunks), markers)
    ensures serial <= Flatten(chunks) && |serial| <= OUTPUT_LIMIT
    ensures passed ==> serial == Flatten(chunks)
  {
    serial := [];
    var pending: Bytes := [];
    var markerIndex := 0;
    var quitting := false;
    ghost var raw: seq<Bytes> := [];
    var i := 0;
    while i < |chunks|
      invariant 0 <= i <= |chunks|
      invariant serial == Flatten(chunks[..i]) && |serial| <= OUTPUT_LIMIT
      invariant Splits(serial, raw, pending) && '\n' !in pending
      invariant Progress(AllStripped(raw), markers) == Some(markerIndex)
      invariant quitting <==> markerIndex == |markers|
    {
      var chunk := chunks[i];
      NextChunk(chunks, i, raw, pending);
      var available := OUTPUT_LIMIT - |serial|;
      if |chunk| > available {
        Truncated(serial, chunk, available, Flatten(chunks));
        return false, serial + chunk[..available];
      }
      serial := serial + chunk;
      pending := pending + chunk;
      var ok;
      ok, pending, markerIndex, raw := ConsumeLines(pending, markerIndex, markers, serial, raw);
      if !ok {
        UnwantedLineDooms(serial, raw, pending, Flatten(chunks), markers);
        return false, serial;
      }
      ProgressCountsMarkers(AllStripped(raw), markers);
      if markerIndex == |markers| && !quitting {
        quitting := true;
      }
      i := i + 1;
    }
    assert chunks[..i] == chunks;
    CountDecides(serial, raw, pending, markers);
    return quitting, serial;
  }

  // The harness as it runs: the verdict is that of the whole output, however it was cut.
  method Run(chunks: seq<Bytes>) returns (passed: bool, serial: Bytes)
    requires forall i :: 0 <= i < |chunks| ==> chunks[i] != []
    ensures passed <==> Passes(Flatten(chunks), MARKERS)
    ensures passed ==> serial == Flatten(chunks)
  {
    passed, serial := Recognise(chunks, MARKERS);
  }
}
