/**
 * `download` (src/main.rs:307-380) and the checksum retry loop around it
 * (src/main.rs:521-540). The network is an oracle: `net(k)` is what the
 * k-th request of the run meets, so every possible behaviour of the
 * network is some `net`. Requests are numbered across the whole run; each
 * operation takes the number of the next request and returns it advanced.
 */
module Fetch {
  import opened Wrappers
  import opened Errors

  /** `MAX_RETRIES`: attempts per download, and downloads per checksum check. */
  const MaxRetries: nat := 3

  /** One `read` on the response body. */
  datatype ReadResult = Chunk(data: string) | ReadFailed

  /** What one request meets. */
  datatype Attempt =
    | ConnectFailed                                 // `reqwest::blocking::get` failed
    | NoLength                                      // a response without a content length
    | Response(length: nat, body: seq<ReadResult>) // its body, read by read; a body that runs out early is a failed read

  /**
   * Reading a body of declared length `length`, `got` bytes in: reads go on
   * while fewer than `length` bytes arrived. The result says whether the
   * body completed and what was received.
   */
  function Receive(length: nat, body: seq<ReadResult>, got: string): (bool, string)
    decreases |body|
  {
    if |got| >= length then (true, got)
    else if body == [] || body[0].ReadFailed? then (false, got)
    else Receive(length, body[1..], got + body[0].data)
  }

  /** The body completed iff at least `length` bytes arrived; reading only ever appends. */
  lemma {:induction false} ReceiveShape(length: nat, body: seq<ReadResult>, got: string)
    ensures var r := Receive(length, body, got);
      && (r.0 <==> |r.1| >= length)
      && |got| <= |r.1| && r.1[..|got|] == got
      && (|got| >= length ==> r == (true, got))
    decreases |body|
  {
    if |got| < length && body != [] && !body[0].ReadFailed? {
      ReceiveShape(length, body[1..], got + body[0].data);
      var r := Receive(length, body[1..], got + body[0].data);
      assert r.1[..|got|] == r.1[..|got + body[0].data|][..|got|];
    }
  }

  /** What reading a response's body yields: whether it completed, and the bytes received. */
  function Received(a: Attempt): (bool, string) {
    if a.Response? then Receive(a.length, a.body, "") else (false, "")
  }

  /** The request reached its full content length. */
  predicate Completes(a: Attempt) {
    a.Response? && Received(a).0
  }

  /** The request failed in a way `download` retries. */
  predicate Transient(a: Attempt) {
    a.ConnectFailed? || (a.Response? && !Received(a).0)
  }

  /** The bytes one request writes into the destination, from offset 0. */
  function Written(a: Attempt): string {
    Received(a).1
  }

  /**
   * `data` written from offset 0 over `file` without truncating it, as
   * after `dest.rewind()`.
   */
  function Overlay(file: string, data: string): string {
    data + (if |data| < |file| then file[|data|..] else [])
  }

  /** The overlaid file is as long as the longer of the two, begins with `data` and keeps `file`'s tail. */
  lemma OverlayShape(file: string, data: string)
    ensures var r := Overlay(file, data);
      && |r| == (if |data| < |file| then |file| else |data|)
      && r[..|data|] == data
      && (|data| < |file| ==> r[|data|..] == file[|data|..])
      && (|file| <= |data| ==> r == data)
  {
  }

  /** `write_all` of `data` at position `pos`. */
  function WriteAt(file: string, pos: nat, data: string): string
    requires pos <= |file|
  {
    file[..pos] + data + (if pos + |data| < |file| then file[pos + |data|..] else [])
  }

  /** Writing the next chunk right after what this attempt already wrote. */
  lemma WriteAfterOverlay(file: string, got: string, data: string)
    ensures |got| <= |Overlay(file, got)|
    ensures WriteAt(Overlay(file, got), |got|, data) == Overlay(file, got + data)
  {
    var o := Overlay(file, got);
    var w := WriteAt(o, |got|, data);
    var v := Overlay(file, got + data);
    assert o[..|got|] == got;
    assert |w| == |v|;
    forall i | 0 <= i < |w| ensures w[i] == v[i] {
      if i < |got| {
        assert w[i] == o[i] == got[i] == (got + data)[i];
      } else if i < |got| + |data| {
        assert w[i] == data[i - |got|] == (got + data)[i];
      } else {
        assert w[i] == o[i] == file[i];
      }
    }
  }

  /**
   * The destination after the requests `start` to `end - 1` of one
   * `download`, starting from the empty file that `File::create` leaves.
   */
  function Replay(net: nat -> Attempt, start: nat, end: nat): string
    decreases end
  {
    if end <= start then "" else Overlay(Replay(net, start, end - 1), Written(net(end - 1)))
  }

  /**
   * The file after several attempts keeps every byte position any of them
   * wrote, and begins with the bytes of the last one.
   */
  lemma {:induction false} ReplayCoversAttempts(net: nat -> Attempt, start: nat, end: nat)
    ensures forall k :: start <= k < end ==> |Written(net(k))| <= |Replay(net, start, end)|
    ensures start < end ==> Replay(net, start, end)[..|Written(net(end - 1))|] == Written(net(end - 1))
    decreases end
  {
    if end > start {
      ReplayCoversAttempts(net, start, end - 1);
    }
  }

  /**
   * The read loop of one response: read until `length` bytes arrived,
   * writing each chunk right after the previous one into a file that held
   * `before`. Stops at the first failed read. Says whether the body
   * completed and leaves the response's bytes written over `before`.
   */
  method ReadBody(before: string, a: Attempt) returns (ok: bool, file: string)
    requires a.Response?
    ensures ok <==> Completes(a)
    ensures file == Overlay(before, Written(a))
  {
    var length, body := a.length, a.body;
    file := before;
    var got := "";
    var i := 0;
    while |got| < length
      invariant 0 <= i <= |body|
      invariant Receive(length, body, "") == Receive(length, body[i..], got)
      invariant file == Overlay(before, got)
      decreases |body| - i
    {
      if i == |body| || body[i].ReadFailed? {
        return false, file;
      }
      WriteAfterOverlay(before, got, body[i].data);
      file := WriteAt(file, |got|, body[i].data);
      got := got + body[i].data;
      assert body[i..][1..] == body[i + 1..];
      i := i + 1;
    }
    ok := true;
  }

  /**
   * One request of `download` over a file that holds `file`: a failed
   * connection or a missing content length writes nothing, a response is
   * read into the file from offset 0. Says how the request ended.
   */
  method Request(file: string, a: Attempt) returns (status: Outcome<FetchError>, file': string)
    ensures status == Pass <==> Completes(a)
    ensures status == Fail(NotFound) <==> a.NoLength?
    ensures status == Fail(Network) <==> Transient(a)
    ensures file' == Overlay(file, Written(a))
    ensures status == Status(a)
  {
    if !a.Response? {
      assert Overlay(file, "") == file;
      return if a.NoLength? then Fail(NotFound) else Fail(Network), file;
    }
    var ok;
    ok, file' := ReadBody(file, a);
    status := if ok then Pass else Fail(Network);
  }

  /** How the last request of a download ends it. */
  function Status(a: Attempt): Outcome<FetchError> {
    if Completes(a) then Pass else if a.NoLength? then Fail(NotFound) else Fail(Network)
  }

  /**
   * The request number after a download whose `attempt`-th request is
   * `start + attempt - 1`: requests go on while they fail in transit and
   * attempts remain.
   */
  function DownloadEnd(net: nat -> Attempt, start: nat, attempt: nat): (next: nat)
    requires 1 <= attempt <= MaxRetries
    ensures start + attempt <= next <= start + MaxRetries
    ensures next < start + MaxRetries ==> !Transient(net(next - 1))
    decreases MaxRetries - attempt
  {
    if attempt < MaxRetries && Transient(net(start + attempt - 1)) then DownloadEnd(net, start, attempt + 1)
    else start + attempt
  }

  /**
   * What `download` from request `start` yields: how it ended, the file it
   * left, and the number of the next request.
   */
  function Downloaded(net: nat -> Attempt, start: nat): (Outcome<FetchError>, string, nat) {
    var next := DownloadEnd(net, start, 1);
    (Status(net(next - 1)), Replay(net, start, next), next)
  }

  /** Every request before the one that ends a download failed in transit. */
  lemma {:induction false} TransientBeforeEnd(net: nat -> Attempt, start: nat, attempt: nat)
    requires 1 <= attempt <= MaxRetries
    requires forall k :: start <= k < start + attempt - 1 ==> Transient(net(k))
    ensures forall k :: start <= k < DownloadEnd(net, start, attempt) - 1 ==> Transient(net(k))
    decreases MaxRetries - attempt
  {
    if attempt < MaxRetries && Transient(net(start + attempt - 1)) {
      TransientBeforeEnd(net, start, attempt + 1);
    }
  }

  /** How the request that ends a download decides its outcome. */
  lemma DownloadedEnds(net: nat -> Attempt, start: nat)
    ensures var (res, _, next) := Downloaded(net, start);
      && (res == Pass <==> Completes(net(next - 1)))
      && (res == Fail(NotFound) <==> net(next - 1).NoLength?)
      && (res == Fail(Network) <==> Transient(net(next - 1)))
      && (res == Fail(Network) ==> next == start + MaxRetries)
  {
  }

  /** A download whose `attempts`-th request ends it. */
  lemma DownloadedAt(net: nat -> Attempt, start: nat, attempts: nat)
    requires 1 <= attempts <= MaxRetries && DownloadEnd(net, start, attempts) == DownloadEnd(net, start, 1)
    requires attempts == MaxRetries || !Transient(net(start + attempts - 1))
    ensures Downloaded(net, start) == (Status(net(start + attempts - 1)), Replay(net, start, start + attempts), start + attempts)
  {
  }

  /**
   * `download`: at most `MaxRetries` requests, connection and read failures
   * counted together; a missing content length ends it at once. On a read
   * failure the file is rewound but not truncated: the next request writes
   * from offset 0 again over what is there.
   */
  method Download(net: nat -> Attempt, start: nat) returns (res: Outcome<FetchError>, file: string, next: nat)
    ensures start < next <= start + MaxRetries
    ensures (res, file, next) == Downloaded(net, start)
  {
    file := "";
    var attempts := 0;
    while true
      invariant 0 <= attempts < MaxRetries
      invariant file == Replay(net, start, start + attempts)
      invariant DownloadEnd(net, start, attempts + 1) == DownloadEnd(net, start, 1)
      decreases MaxRetries - attempts
    {
      attempts := attempts + 1;
      res, file := Request(file, net(start + attempts - 1));
      if res != Fail(Network) || attempts >= MaxRetries {
        DownloadedAt(net, start, attempts);
        return res, file, start + attempts;
      }
      assert DownloadEnd(net, start, attempts) == DownloadEnd(net, start, attempts + 1);
    }
  }

  /**
   * When every response of a download declares the same length, the
   * rewind-without-truncate leaves nothing behind: the file holds exactly
   * the body of the request that completed.
   */
  lemma {:induction false} StableLengthGivesExactFile(net: nat -> Attempt, start: nat, next: nat)
    requires start < next && Completes(net(next - 1))
    requires forall k :: start <= k < next - 1 ==> Transient(net(k))
    requires forall k :: start <= k < next - 1 && net(k).Response? ==> net(k).length == net(next - 1).length
    ensures Replay(net, start, next) == Written(net(next - 1))
  {
    var a := net(next - 1);
    ReceiveShape(a.length, a.body, "");
    ReplayShorterThan(net, start, next - 1, a.length);
    OverlayShape(Replay(net, start, next - 1), Written(a));
  }

  lemma {:induction false} ReplayShorterThan(net: nat -> Attempt, start: nat, end: nat, length: nat)
    requires forall k :: start <= k < end ==> Transient(net(k))
    requires forall k :: start <= k < end && net(k).Response? ==> net(k).length == length
    ensures |Replay(net, start, end)| <= length
    decreases end
  {
    if end > start {
      var a := net(end - 1);
      if a.Response? {
        ReceiveShape(a.length, a.body, "");
      }
      ReplayShorterThan(net, start, end - 1, length);
      OverlayShape(Replay(net, start, end - 1), Written(a));
    }
  }

  /**
   * The quirk of `dest.rewind()` without truncation: a first response that
   * failed after 4 of its 5 bytes, then a complete 2-byte response, leave
   * "xycd" where the body was "xy". Only a later checksum comparison
   * notices.
   */
  lemma TrailingBytesAfterRetry(net: nat -> Attempt)
    requires net(0) == Response(5, [Chunk("abcd"), ReadFailed])
    requires net(1) == Response(2, [Chunk("xy")])
    ensures Completes(net(1)) && Written(net(1)) == "xy" && Replay(net, 0, 2) == "xycd"
  {
    assert [Chunk("abcd"), ReadFailed][1..] == [ReadFailed];
    assert [Chunk("xy")][1..] == [];
    assert "" + "abcd" == "abcd" && "" + "xy" == "xy";
    assert Receive(5, [Chunk("abcd"), ReadFailed], "") == Receive(5, [ReadFailed], "abcd");
    assert Receive(2, [Chunk("xy")], "") == Receive(2, [], "xy");
    assert Replay(net, 0, 1) == Overlay("", "abcd") == "abcd";
    assert Overlay("abcd", "xy") == "xy" + "cd";
  }

  /** How the checksum loop ended, the file it left, the downloads it made, and the next request number. */
  datatype Checked = Checked(res: Outcome<SyncError>, file: string, tries: nat, next: nat)

  /** The download from request `start` completed, but its file does not have the expected digest. */
  predicate Mismatched(net: nat -> Attempt, start: nat, expected: string, digest: string -> string) {
    Downloaded(net, start).0 == Pass && digest(Downloaded(net, start).1) != expected
  }

  /**
   * The checksum loop from its `tries`-th download on, that download
   * starting at request `start`: a failed download aborts, a matching
   * digest passes, a mismatch downloads again while downloads remain.
   */
  function Verify(net: nat -> Attempt, start: nat, expected: string, digest: string -> string, tries: nat): (r: Checked)
    requires 1 <= tries <= MaxRetries
    ensures tries <= r.tries <= MaxRetries && start < r.next
    // each download makes at most `MaxRetries` requests
    ensures r.next <= start + MaxRetries * (MaxRetries + 1 - tries)
    ensures r.res == Pass ==> digest(r.file) == expected
    ensures r.res == Fail(ChecksumMismatch) ==> r.tries == MaxRetries && digest(r.file) != expected
    ensures r.res.Fail? ==> r.res.error == ChecksumMismatch || r.res.error.DownloadFailed?
    decreases MaxRetries - tries
  {
    var (got, file, next) := Downloaded(net, start);
    if got.Fail? then Checked(Fail(DownloadFailed(got.error)), file, tries, next)
    else if digest(file) == expected then Checked(Pass, file, tries, next)
    else if tries == MaxRetries then Checked(Fail(ChecksumMismatch), file, tries, next)
    else Verify(net, next, expected, digest, tries + 1)
  }

  /**
   * `starts` are the first requests of consecutive downloads, each of which
   * but the last completed with the wrong digest.
   */
  ghost predicate History(net: nat -> Attempt, starts: seq<nat>, expected: string, digest: string -> string) {
    forall i :: 0 <= i < |starts| - 1 ==>
      Mismatched(net, starts[i], expected, digest) && Downloaded(net, starts[i]).2 == starts[i + 1]
  }

  /** One more download after a mismatch extends the history. */
  lemma HistoryExtend(net: nat -> Attempt, starts: seq<nat>, expected: string, digest: string -> string)
    requires History(net, starts, expected, digest) && |starts| > 0
    requires Mismatched(net, starts[|starts| - 1], expected, digest)
    ensures History(net, starts + [Downloaded(net, starts[|starts| - 1]).2], expected, digest)
  {
  }

  /**
   * The checksum loop: download, digest the file, compare with the
   * declared hash; on a mismatch download again, at most `MaxRetries`
   * times. A failed download aborts at once.
   */
  method FetchVerified(net: nat -> Attempt, start: nat, expected: string, digest: string -> string)
    returns (res: Outcome<SyncError>, file: string, tries: nat, next: nat, ghost starts: seq<nat>)
    ensures Checked(res, file, tries, next) == Verify(net, start, expected, digest, 1)
    ensures start < next <= start + MaxRetries * tries
    // `starts[i]` is the first request of download `i`; every download but the last completed with the wrong digest
    ensures |starts| == tries && starts[0] == start
    ensures forall i :: 0 <= i < tries - 1 ==>
      Mismatched(net, starts[i], expected, digest) && Downloaded(net, starts[i]).2 == starts[i + 1]
    // the last download decides
    ensures var (got, last, end) := Downloaded(net, starts[tries - 1]);
      && file == last && next == end
      && (got.Fail? ==> res == Fail(DownloadFailed(got.error)))
      && (got == Pass && digest(last) == expected ==> res == Pass)
      && (got == Pass && digest(last) != expected ==> tries == MaxRetries && res == Fail(ChecksumMismatch))
  {
    var got;
    tries, starts := 1, [start];
    got, file, next := Download(net, start);
    while got == Pass && digest(file) != expected && tries < MaxRetries
      invariant 1 <= tries <= MaxRetries
      invariant start < next <= start + MaxRetries * tries
      invariant |starts| == tries && starts[0] == start
      invariant History(net, starts, expected, digest)
      invariant Downloaded(net, starts[tries - 1]) == (got, file, next)
      invariant Verify(net, starts[tries - 1], expected, digest, tries) == Verify(net, start, expected, digest, 1)
      decreases MaxRetries - tries
    {
      HistoryExtend(net, starts, expected, digest);
      tries, starts := tries + 1, starts + [next];
      got, file, next := Download(net, next);
    }
    res := if got.Fail? then Fail(DownloadFailed(got.error))
      else if digest(file) == expected then Pass
      else Fail(ChecksumMismatch);
  }
}
