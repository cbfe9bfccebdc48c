/**
 * The peer-to-peer file page. The sender announces the file, sends it in
 * 64 KiB slices while the data channel stays open, and closes with an end
 * marker; the receiver collects the binary messages and counts their bytes.
 * Offers are kept in browser storage under `offer_<code>`, and a receiver
 * finds one from a share code or from a share link carrying `?code=`.
 *
 * The channel's state at each read is a parameter (`open(i)`: the channel
 * is open when the `i`-th slice has been read); WebRTC itself, the offer
 * encoding and the timers are outside the model.
 */
module FileShare {
  import opened Wrappers
  import opened Text

  newtype byte = x: int | 0 <= x < 256

  /** `this.chunkSize`. */
  const ChunkSize: nat := 64 * 1024
  /** The size guard's limit, 10 GiB. */
  const MaxFileSize: nat := 10 * 1024 * 1024 * 1024

  datatype File = File(name: string, data: seq<byte>)

  /** What travels over the data channel: the JSON control messages and binary slices. */
  datatype Message =
    | Start(fileName: string, fileSize: nat)
    | End
    | OtherControl(kind: string)
    | Binary(data: seq<byte>)

  /** What `completeFileReceive` hands to the browser for download. */
  datatype Download = Download(name: string, content: seq<byte>)

  function Min(a: int, b: int): int { if a <= b then a else b }

  // ---------------------------------------------------------------------------
  // slicing

  /** How many slices a file of `size` bytes has: one per started block of the chunk size. */
  function ChunkCount(size: nat): nat
    decreases size
  {
    if size == 0 then 0
    else if size <= ChunkSize then 1
    else 1 + ChunkCount(size - ChunkSize)
  }

  lemma NextOffset(i: nat)
    ensures (i + 1) * ChunkSize == i * ChunkSize + ChunkSize
  {
  }

  /** Slice `i` starts inside the file exactly when `i` is below the slice count. */
  lemma {:induction false} ChunkCountMeans(i: nat, size: nat)
    ensures i < ChunkCount(size) <==> i * ChunkSize < size
    decreases size
  {
    if size > ChunkSize && i > 0 {
      ChunkCountMeans(i - 1, size - ChunkSize);
      NextOffset(i - 1);
    }
  }

  /** The slice count is the size divided by the chunk size, rounded up. */
  lemma ChunkCountIsCeiling(size: nat)
    ensures ChunkCount(size) == (size + ChunkSize - 1) / ChunkSize
    ensures size <= ChunkCount(size) * ChunkSize
  {
    var n := ChunkCount(size);
    ChunkCountMeans(n, size);
    if n > 0 {
      ChunkCountMeans(n - 1, size);
      NextOffset(n - 1);
    }
    DivideBetween(size + ChunkSize - 1, n);
  }

  lemma DivideBetween(x: nat, n: nat)
    requires n * ChunkSize <= x < n * ChunkSize + ChunkSize
    ensures x / ChunkSize == n
  {
  }

  /** `file.slice(offset, offset + chunkSize)` at `offset == i * chunkSize`. */
  function ChunkAt(data: seq<byte>, i: nat): (c: seq<byte>)
    requires i < ChunkCount(|data|)
    ensures 0 < |c| <= ChunkSize
    ensures i + 1 < ChunkCount(|data|) ==> |c| == ChunkSize
  {
    ChunkCountMeans(i, |data|);
    ChunkCountMeans(i + 1, |data|);
    data[i * ChunkSize .. Min(i * ChunkSize + ChunkSize, |data|)]
  }

  /** The first `k` slices, in order. */
  function Chunks(data: seq<byte>, k: nat): (cs: seq<seq<byte>>)
    requires k <= ChunkCount(|data|)
    ensures |cs| == k
    ensures forall i :: 0 <= i < k ==> cs[i] == ChunkAt(data, i)
  {
    if k == 0 then [] else Chunks(data, k - 1) + [ChunkAt(data, k - 1)]
  }

  /** The bytes of a list of slices, one after the other (a `Blob` of them). */
  function Flatten(cs: seq<seq<byte>>): seq<byte>
  {
    if |cs| == 0 then [] else Flatten(cs[..|cs| - 1]) + cs[|cs| - 1]
  }

  lemma FlattenSnoc(cs: seq<seq<byte>>, c: seq<byte>)
    ensures Flatten(cs + [c]) == Flatten(cs) + c
  {
    assert (cs + [c])[..|cs|] == cs;
  }

  /** The first `k` slices are the first `k * chunkSize` bytes of the file (or all of it). */
  lemma {:induction false} FlattenChunks(data: seq<byte>, k: nat)
    requires k <= ChunkCount(|data|)
    ensures Flatten(Chunks(data, k)) == data[..Min(k * ChunkSize, |data|)]
  {
    if k > 0 {
      FlattenChunks(data, k - 1);
      var lo, hi := LastChunkBounds(data, k);
      FlattenLastChunk(data, k);
      PrefixThenSlice(data, lo, hi);
    }
  }

  /** Where the `k`-th slice lies: it follows the first `k - 1` slices' bytes and ends where the first `k` slices' bytes do. */
  lemma LastChunkBounds(data: seq<byte>, k: nat) returns (lo: nat, hi: nat)
    requires 0 < k <= ChunkCount(|data|)
    ensures lo == Min((k - 1) * ChunkSize, |data|) && hi == Min(k * ChunkSize, |data|)
    ensures lo <= hi <= |data| && ChunkAt(data, k - 1) == data[lo..hi]
  {
    ChunkCountMeans(k - 1, |data|);
    NextOffset(k - 1);
    lo, hi := (k - 1) * ChunkSize, Min(k * ChunkSize, |data|);
  }

  lemma FlattenLastChunk(data: seq<byte>, k: nat)
    requires 0 < k <= ChunkCount(|data|)
    ensures Flatten(Chunks(data, k)) == Flatten(Chunks(data, k - 1)) + ChunkAt(data, k - 1)
  {
    FlattenSnoc(Chunks(data, k - 1), ChunkAt(data, k - 1));
  }

  lemma PrefixThenSlice<T>(s: seq<T>, lo: nat, hi: nat)
    requires lo <= hi <= |s|
    ensures s[..lo] + s[lo..hi] == s[..hi]
  {
  }

  /** All the slices together are the file. */
  lemma SlicesReassemble(data: seq<byte>)
    ensures Flatten(Chunks(data, ChunkCount(|data|))) == data
  {
    var n := ChunkCount(|data|);
    FlattenChunks(data, n);
    ChunkCountMeans(n, |data|);
    assert Min(n * ChunkSize, |data|) == |data|;
    assert data[..|data|] == data;
  }

  // ---------------------------------------------------------------------------
  // what the sender puts on the channel

  /** Each slice as a binary message. */
  function Binaries(cs: seq<seq<byte>>): (ms: seq<Message>)
    ensures |ms| == |cs|
    ensures forall i :: 0 <= i < |cs| ==> ms[i] == Binary(cs[i])
  {
    if |cs| == 0 then [] else Binaries(cs[..|cs| - 1]) + [Binary(cs[|cs| - 1])]
  }

  /** One more slice sent extends what was sent by that slice. */
  lemma NextSlice(head: seq<Message>, data: seq<byte>, i: nat)
    requires i < ChunkCount(|data|)
    ensures head + Binaries(Chunks(data, i + 1)) == (head + Binaries(Chunks(data, i))) + [Binary(ChunkAt(data, i))]
  {
    var cs := Chunks(data, i + 1);
    assert cs[..i] == Chunks(data, i);
  }

  /** The binary payloads among `ms`, in order. */
  function Payloads(ms: seq<Message>): seq<seq<byte>>
  {
    if |ms| == 0 then []
    else Payloads(ms[..|ms| - 1]) + (if ms[|ms| - 1].Binary? then [ms[|ms| - 1].data] else [])
  }

  lemma {:induction false} PayloadsAppend(a: seq<Message>, b: seq<Message>)
    ensures Payloads(a + b) == Payloads(a) + Payloads(b)
    decreases |b|
  {
    if |b| == 0 {
      assert a + b == a;
    } else {
      var b' := b[..|b| - 1];
      assert (a + b)[..|a + b| - 1] == a + b';
      PayloadsAppend(a, b');
    }
  }

  lemma PayloadsOfOne(m: Message)
    ensures Payloads([m]) == if m.Binary? then [m.data] else []
  {
    assert [m][..0] == [];
  }

  lemma {:induction false} PayloadsOfBinaries(cs: seq<seq<byte>>)
    ensures Payloads(Binaries(cs)) == cs
  {
    if |cs| > 0 {
      var init, last := cs[..|cs| - 1], cs[|cs| - 1];
      assert cs == init + [last];
      assert Binaries(cs) == Binaries(init) + [Binary(last)];
      PayloadsOfBinaries(init);
      PayloadsAppend(Binaries(init), [Binary(last)]);
      PayloadsOfOne(Binary(last));
    }
  }

  /**
   * The last `start` among `ms`, if any: its name and size are what a
   * receiver holds after handling `ms` in order.
   */
  function LastStart(ms: seq<Message>): (r: Option<Message>)
    ensures r.None? <==> forall k :: 0 <= k < |ms| ==> !ms[k].Start?
    ensures r.Some? ==> r.value.Start? && r.value in ms
    ensures r.Some? ==> exists k :: 0 <= k < |ms| && ms[k] == r.value && forall j :: k < j < |ms| ==> !ms[j].Start?
  {
    if |ms| == 0 then None
    else if ms[|ms| - 1].Start? then Some(ms[|ms| - 1])
    else LastStart(ms[..|ms| - 1])
  }

  /** How many slices get sent: reads go on from `i` while the channel is open, up to `n`. */
  function OpenRun(open: nat -> bool, i: nat, n: nat): (k: nat)
    requires i <= n
    ensures i <= k <= n
    ensures forall j :: i <= j < k ==> open(j)
    ensures k < n ==> !open(k)
    decreases n - i
  {
    if i == n || !open(i) then i else OpenRun(open, i + 1, n)
  }

  /**
   * The messages `sendFile` sends: `start` with the name and size, then the
   * slices read while the channel was open, then `end` only if every slice
   * went out.
   */
  function Transmission(f: File, open: nat -> bool): seq<Message>
  {
    var n := ChunkCount(|f.data|);
    var k := OpenRun(open, 0, n);
    [Start(f.name, |f.data|)] + Binaries(Chunks(f.data, k)) + (if k == n then [End] else [])
  }

  /** The loop ends with the offset at or past the size only after the last slice. */
  lemma AllSlicesSent(size: nat, i: nat)
    requires i <= ChunkCount(size) && i * ChunkSize >= size
    ensures i == ChunkCount(size)
  {
    ChunkCountMeans(i, size);
  }

  /** Where the sending stops decides the whole transmission. */
  lemma TransmissionStopsAt(f: File, open: nat -> bool, i: nat)
    requires i <= ChunkCount(|f.data|)
    requires i <= OpenRun(open, 0, ChunkCount(|f.data|))
    requires i == ChunkCount(|f.data|) || !open(i)
    ensures Transmission(f, open)
      == [Start(f.name, |f.data|)] + Binaries(Chunks(f.data, i)) + (if i == ChunkCount(|f.data|) then [End] else [])
  {
    var k := OpenRun(open, 0, ChunkCount(|f.data|));
    assert k == i;
  }

  /**
   * The transmission announces the file first; `end` is sent exactly when the
   * channel stayed open for every slice, once, and last; the payloads are the
   * file's consecutive slices, stopping at the first read that found the
   * channel closed.
   */
  lemma TransmissionShape(f: File, open: nat -> bool)
    ensures var t := Transmission(f, open); |t| >= 1 && t[0] == Start(f.name, |f.data|)
    ensures var t := Transmission(f, open);
      End in t <==> forall j :: 0 <= j < ChunkCount(|f.data|) ==> open(j)
    ensures var t := Transmission(f, open);
      End in t ==> t[|t| - 1] == End && End !in t[..|t| - 1]
    ensures var k := OpenRun(open, 0, ChunkCount(|f.data|));
      Payloads(Transmission(f, open)) == Chunks(f.data, k)
      && (k < ChunkCount(|f.data|) ==> !open(k))
  {
    var n := ChunkCount(|f.data|);
    var k := OpenRun(open, 0, n);
    var t := Transmission(f, open);
    var body := [Start(f.name, |f.data|)] + Binaries(Chunks(f.data, k));
    NoEndBeforeLast(f, k);
    if k == n {
      assert t == body + [End] && t[..|t| - 1] == body;
    } else {
      assert t == body;
    }
    TransmissionPayloads(f, open);
  }

  /** `start` and slices only: no `end` among them. */
  lemma NoEndBeforeLast(f: File, k: nat)
    requires k <= ChunkCount(|f.data|)
    ensures End !in [Start(f.name, |f.data|)] + Binaries(Chunks(f.data, k))
  {
    var body := [Start(f.name, |f.data|)] + Binaries(Chunks(f.data, k));
    forall i | 0 <= i < |body| ensures body[i] != End {
      if i > 0 { assert body[i] == Binary(Chunks(f.data, k)[i - 1]); }
    }
  }

  /** The binary payloads of the transmission are the slices sent. */
  lemma TransmissionPayloads(f: File, open: nat -> bool)
    ensures Payloads(Transmission(f, open)) == Chunks(f.data, OpenRun(open, 0, ChunkCount(|f.data|)))
  {
    var n := ChunkCount(|f.data|);
    var k := OpenRun(open, 0, n);
    var body := [Start(f.name, |f.data|)] + Binaries(Chunks(f.data, k));
    PayloadsAppend([Start(f.name, |f.data|)], Binaries(Chunks(f.data, k)));
    PayloadsOfBinaries(Chunks(f.data, k));
    assert Payloads([Start(f.name, |f.data|)]) == [] by {
      assert [Start(f.name, |f.data|)][..0] == [];
    }
    if k == n {
      assert Transmission(f, open) == body + [End];
      PayloadsAppend(body, [End]);
      assert Payloads([End]) == [] by { assert [End][..0] == []; }
    } else {
      assert Transmission(f, open) == body;
    }
  }

  /** With the channel open throughout, the payloads put back together are the file. */
  lemma OpenChannelDeliversFile(f: File, open: nat -> bool)
    requires forall j :: 0 <= j < ChunkCount(|f.data|) ==> open(j)
    ensures Flatten(Payloads(Transmission(f, open))) == f.data
    ensures |Payloads(Transmission(f, open))| == ChunkCount(|f.data|)
  {
    TransmissionShape(f, open);
    SlicesReassemble(f.data);
  }

  /**
   * The sender's progress after `i` reads: the offset is at slice `i`, every
   * read so far found the channel open, and `start` and the first `i` slices
   * have been sent.
   */
  predicate Sending(f: File, open: nat -> bool, i: nat, offset: nat, sent: seq<Message>)
  {
    var n := ChunkCount(|f.data|);
    i <= n && i <= OpenRun(open, 0, n) && offset == i * ChunkSize
    && sent == [Start(f.name, |f.data|)] + Binaries(Chunks(f.data, i))
  }

  /** A read that finds the channel open sends the slice at the offset and moves on by the chunk size. */
  lemma SendingStep(f: File, open: nat -> bool, i: nat, offset: nat, sent: seq<Message>)
    requires Sending(f, open, i, offset, sent) && offset < |f.data| && open(i)
    ensures i < ChunkCount(|f.data|)
    ensures Sending(f, open, i + 1, offset + ChunkSize, sent + [Binary(ChunkAt(f.data, i))])
  {
    var n := ChunkCount(|f.data|);
    ChunkCountMeans(i, |f.data|);
    assert i + 1 <= OpenRun(open, 0, n) by {
      var k := OpenRun(open, 0, n);
      assert i != k || !open(i);
    }
    NextOffset(i);
    NextSlice([Start(f.name, |f.data|)], f.data, i);
  }

  /** Sending stops at a closed channel, or with `end` once the offset reaches the size. */
  lemma SendingStops(f: File, open: nat -> bool, i: nat, offset: nat, sent: seq<Message>)
    requires Sending(f, open, i, offset, sent) && (offset >= |f.data| || !open(i))
    ensures offset >= |f.data| ==> sent + [End] == Transmission(f, open)
    ensures offset < |f.data| ==> sent == Transmission(f, open)
  {
    if offset >= |f.data| {
      AllSlicesSent(|f.data|, i);
    } else {
      ChunkCountMeans(i, |f.data|);
    }
    TransmissionStopsAt(f, open, i);
  }

  /** The loop of `sendFile` for a selected file and an open channel. */
  method Send(f: File, open: nat -> bool) returns (sent: seq<Message>)
    ensures sent == Transmission(f, open)
  {
    var size := |f.data|;
    sent := [Start(f.name, size)];
    var offset := 0;
    var i := 0;
    while offset < size
      invariant Sending(f, open, i, offset, sent)
      decreases size - offset
    {
      if !open(i) {
        SendingStops(f, open, i, offset, sent);
        return;
      }
      SendingStep(f, open, i, offset, sent);
      sent := sent + [Binary(ChunkAt(f.data, i))];
      offset := offset + ChunkSize;
      i := i + 1;
    }
    SendingStops(f, open, i, offset, sent);
    sent := sent + [End];
  }

  // ---------------------------------------------------------------------------
  // storage keys and share links

  /** The storage key of an offer, `offer_${code}`. */
  function OfferKey(code: string): (k: string)
    ensures |k| == |code| + 6 && k[6..] == code && k[..6] == "offer_"
  {
    "offer_" + code
  }

  /** `s.indexOf(c)`, or -1. */
  function IndexOf(s: string, c: char): (i: int)
    ensures -1 <= i < |s|
    ensures i == -1 <==> c !in s
    ensures i >= 0 ==> s[i] == c && c !in s[..i]
  {
    if |s| == 0 then -1
    else if s[0] == c then 0
    else
      var j := IndexOf(s[1..], c);
      assert s[1..][..if j >= 0 then j else 0] == s[1..1 + if j >= 0 then j else 0];
      if j == -1 then -1 else j + 1
  }

  /** The first occurrence is the one with none before it. */
  lemma IndexOfFirst(s: string, c: char, k: nat)
    requires k < |s| && s[k] == c && c !in s[..k]
    ensures IndexOf(s, c) == k
  {
    var i := IndexOf(s, c);
    assert i != -1 by {
      assert c in s;
    }
  }

  /** The text between the first `?` and the fragment, as `URL.search` holds it without its `?`. */
  function QueryOf(url: string): string
  {
    var beforeHash := if '#' in url then url[..IndexOf(url, '#')] else url;
    if '?' in beforeHash then beforeHash[IndexOf(beforeHash, '?') + 1..] else ""
  }

  /** The value of the first `name=value` pair named `name` among `pairs` (no `=` means an empty value). */
  function FirstParam(pairs: seq<string>, name: string): (v: Option<string>)
    ensures v.Some? ==> exists i :: 0 <= i < |pairs| && StartsWith(pairs[i], name)
  {
    if |pairs| == 0 then None
    else
      var p := pairs[0];
      var i := IndexOf(p, '=');
      var key := if i >= 0 then p[..i] else p;
      if key == name then Some(if i >= 0 then p[i + 1..] else "")
      else
        var v := FirstParam(pairs[1..], name);
        assert v.Some? ==> exists j :: 0 <= j < |pairs| && StartsWith(pairs[j], name) by {
          if v.Some? {
            var j :| 0 <= j < |pairs[1..]| && StartsWith(pairs[1..][j], name);
            assert pairs[j + 1] == pairs[1..][j];
          }
        }
        v
  }

  /** `new URL(url).searchParams.get(name)`, without percent-decoding. */
  function SearchParam(url: string, name: string): Option<string>
  {
    FirstParam(Split(QueryOf(url), '&'), name)
  }

  /** The link put in the share box: origin and path, then `?code=` and the code. */
  function ShareLink(origin: string, pathname: string, code: string): string
  {
    origin + pathname + "?code=" + code
  }

  /**
   * The code `connectToSender` looks an offer up by: the trimmed input, or for
   * input starting with `http` the link's `code` parameter. A link without
   * one looks up `null`, which the template string turns into `"null"`.
   * Empty input looks nothing up.
   */
  function ExtractCode(input: string): Option<string>
  {
    var code := Trim(input);
    if code == [] then None
    else if StartsWith(code, "http") then
      match SearchParam(code, "code") {
        case Some(c) => Some(c)
        case None => Some("null")
      }
    else Some(code)
  }

  /**
   * The code a page opened at `pageUrl` looks an offer up by: its non-empty
   * `code` parameter, read as `connectToSender` reads typed input.
   */
  function PageCode(pageUrl: string): Option<string>
  {
    var param := SearchParam(pageUrl, "code");
    if param.Some? && param.value != "" then ExtractCode(param.value) else None
  }

  /** Blank input extracts nothing; other input not starting with `http` is its trimmed self. */
  lemma ExtractCodeCases(input: string)
    ensures ExtractCode(input).None? <==> Trim(input) == []
    ensures ExtractCode(input).Some? && !StartsWith(Trim(input), "http") ==>
      ExtractCode(input).value == Trim(input)
  {
  }

  /** A link without a query reads the offer stored under the code `null`. */
  lemma LinkWithoutCode(url: string)
    requires StartsWith(url, "http") && '?' !in url
    requires !IsTrimmable(url[|url| - 1])
    ensures ExtractCode(url) == Some("null")
  {
    assert url[0] == 'h';
    assert Trim(url) == url;
    var beforeHash := if '#' in url then url[..IndexOf(url, '#')] else url;
    assert '?' !in beforeHash;
    assert QueryOf(url) == "";
    assert Split("", '&') == [""];
    assert IndexOf("", '=') == -1;
    assert FirstParam([""], "code") == None;
  }

  /** A share code's characters: `Math.random().toString(36)` digits, upper-cased. */
  predicate IsShareCode(code: string)
  {
    |code| > 0 && forall i :: 0 <= i < |code| ==> '0' <= code[i] <= '9' || 'A' <= code[i] <= 'Z'
  }

  /** The query of a link whose base holds no `?` or `#` is everything after its `?`. */
  lemma QueryAfterBase(base: string, query: string)
    requires '?' !in base && '#' !in base && '#' !in query
    ensures QueryOf(base + ['?'] + query) == query
  {
    var link := base + ['?'] + query;
    assert '#' !in link by {
      forall i | 0 <= i < |link| ensures link[i] != '#' {
        if i < |base| { assert link[i] == base[i]; }
        else if i > |base| { assert link[i] == query[i - |base| - 1]; }
      }
    }
    assert link[..|base|] == base;
    IndexOfFirst(link, '?', |base|);
    assert link[|base| + 1..] == query;
  }

  /** A query made of the single pair `code=<code>`, with no `&` in the code, yields the code. */
  lemma SingleCodeParam(code: string)
    requires '&' !in code && '#' !in code
    ensures FirstParam(Split("code=" + code, '&'), "code") == Some(code)
    ensures '#' !in "code=" + code
  {
    var query := "code=" + code;
    CodePairSeparators(code);
    assert Split(query, '&') == [query] by {
      JoinSplit(query, '&');
    }
    assert FirstParam([query], "code") == Some(code) by {
      assert query[..4] == "code" && query[4] == '=';
      IndexOfFirst(query, '=', 4);
      assert query[5..] == code;
    }
  }

  lemma CodePairSeparators(code: string)
    requires '&' !in code && '#' !in code
    ensures '&' !in "code=" + code && '#' !in "code=" + code
  {
    var query := "code=" + code;
    forall i | 0 <= i < |query| ensures query[i] != '&' && query[i] != '#' {
      if i >= 5 { assert query[i] == code[i - 5]; }
    }
  }

  /** A share code has no surrounding white space, does not look like a link and holds no `#` or `&`. */
  lemma ShareCodeIsPlain(code: string)
    requires IsShareCode(code)
    ensures Trim(code) == code && !StartsWith(code, "http")
    ensures '#' !in code && '&' !in code
  {
    forall i | 0 <= i < |code|
      ensures !IsTrimmable(code[i]) && code[i] != '#' && code[i] != '&' && code[i] != 'h'
    {
      var u := code[i] as int;
      assert 48 <= u <= 57 || 65 <= u <= 90;
    }
  }

  /**
   * Pasting the share link or typing its code opens the same offer: both
   * extract the code itself.
   */
  lemma ShareLinkRoundTrip(origin: string, pathname: string, code: string)
    requires StartsWith(origin, "http")
    requires '?' !in origin + pathname && '#' !in origin + pathname
    requires IsShareCode(code)
    ensures ExtractCode(ShareLink(origin, pathname, code)) == Some(code)
    ensures ExtractCode(code) == Some(code)
  {
    ShareCodeIsPlain(code);
    assert (origin + pathname)[..4] == origin[..4];
    LinkCarriesCode(origin + pathname, code);
  }

  /** A link made of an `http` base without query or fragment, then `?code=` and a code, yields the code. */
  lemma LinkCarriesCode(base: string, code: string)
    requires StartsWith(base, "http") && '?' !in base && '#' !in base
    requires |code| > 0 && !IsTrimmable(code[|code| - 1]) && '#' !in code && '&' !in code
    ensures ExtractCode(base + "?code=" + code) == Some(code)
  {
    var link := base + ['?'] + ("code=" + code);
    LinkSpelling(base, code);
    LinkQuery(base, code);
    LinkIsTrimmed(base, code);
    ExtractFromLink(link, code);
  }

  lemma LinkQuery(base: string, code: string)
    requires '?' !in base && '#' !in base && '#' !in code && '&' !in code
    ensures SearchParam(base + ['?'] + ("code=" + code), "code") == Some(code)
  {
    SingleCodeParam(code);
    QueryAfterBase(base, "code=" + code);
  }

  /** A page opened at a share link looks the offer up by the link's code. */
  lemma ShareLinkOpensReceiver(origin: string, pathname: string, code: string)
    requires StartsWith(origin, "http")
    requires '?' !in origin + pathname && '#' !in origin + pathname
    requires IsShareCode(code)
    ensures PageCode(ShareLink(origin, pathname, code)) == Some(code)
  {
    ShareLinkRoundTrip(origin, pathname, code);
    ShareCodeIsPlain(code);
    LinkSpelling(origin + pathname, code);
    LinkQuery(origin + pathname, code);
  }

  lemma LinkIsTrimmed(base: string, code: string)
    requires StartsWith(base, "http") && |code| > 0 && !IsTrimmable(code[|code| - 1])
    ensures var link := base + ['?'] + ("code=" + code);
      Trim(link) == link && StartsWith(link, "http")
  {
    var rest := ['?'] + ("code=" + code);
    assert rest[|rest| - 1] == code[|code| - 1];
    LinkTrimmed(base, rest);
    assert base + rest == base + ['?'] + ("code=" + code);
  }

  lemma LinkSpelling(base: string, code: string)
    ensures base + "?code=" + code == base + ['?'] + ("code=" + code)
  {
    assert "?code=" == ['?'] + "code=";
  }

  /** An `http` base followed by text that ends in a non-space is a trimmed link. */
  lemma LinkTrimmed(base: string, rest: string)
    requires StartsWith(base, "http") && |rest| > 0 && !IsTrimmable(rest[|rest| - 1])
    ensures Trim(base + rest) == base + rest && StartsWith(base + rest, "http")
  {
    var link := base + rest;
    assert link[0] == 'h' && link[|link| - 1] == rest[|rest| - 1];
    assert link[..4] == base[..4];
  }

  /** Input that is already trimmed and starts with `http` is looked up by its `code` parameter. */
  lemma ExtractFromLink(link: string, code: string)
    requires Trim(link) == link && StartsWith(link, "http") && SearchParam(link, "code") == Some(code)
    ensures ExtractCode(link) == Some(code)
  {
  }

  // ---------------------------------------------------------------------------
  // the page object

  /** A looked-up offer that passes `if (!offerData)`: present and not the empty string. */
  predicate IsOffer(offer: Option<string>)
  {
    offer.Some? && offer.value != ""
  }

  class P2PFileShare {
    /** The selected file. */
    var file: Option<File>
    /** `this.dataChannel` is set. */
    var hasChannel: bool
    var isReceiver: bool
    var receivedData: seq<seq<byte>>
    var receivedBytes: nat
    var totalBytes: nat
    /** The announced name; the source leaves it unset until a `start`, modelled as "". */
    var fileName: string
    /** The offer read by `connectToSender`, still encoded. */
    var pendingOffer: Option<string>
    /** Browser storage. */
    var storage: map<string, string>

    /** The byte count follows the collected data. */
    predicate Valid()
      reads this
    {
      receivedBytes == |Flatten(receivedData)|
    }

    /**
     * A fresh page over the browser's storage, opened at `pageUrl`. When the
     * address carries a non-empty `code` parameter, the page goes straight
     * to `connectToSender` with it (`checkUrlParams`).
     */
    constructor (storage: map<string, string>, pageUrl: string)
      ensures Valid() && file.None? && !hasChannel
      ensures receivedData == [] && receivedBytes == 0 && totalBytes == 0 && fileName == "" && this.storage == storage
      ensures isReceiver == PageCode(pageUrl).Some?
      ensures pendingOffer == (if PageCode(pageUrl).Some? && IsOffer(GetStoredOffer(PageCode(pageUrl).value))
                               then GetStoredOffer(PageCode(pageUrl).value) else None)
    {
      file := None;
      hasChannel := false;
      isReceiver := false;
      receivedData := [];
      receivedBytes := 0;
      totalBytes := 0;
      fileName := "";
      pendingOffer := None;
      this.storage := storage;
      new;
      var param := SearchParam(pageUrl, "code");
      if param.Some? && param.value != "" {
        var _ := ConnectToSender(param.value);
      }
      assert PageCode(pageUrl) == if param.Some? && param.value != "" then ExtractCode(param.value) else None;
    }

    /**
     * `handleFileSelect`: a file over 10 GiB is refused and the current one
     * kept; an accepted file goes to `setupSender`, which opens the data
     * channel before its first wait.
     */
    method HandleFileSelect(f: Option<File>) returns (accepted: bool)
      modifies this`file, this`hasChannel
      ensures accepted <==> f.Some? && |f.value.data| <= MaxFileSize
      ensures accepted ==> file == f && hasChannel
      ensures !accepted ==> file == old(file) && hasChannel == old(hasChannel)
      ensures storage == old(storage) && receivedData == old(receivedData) && receivedBytes == old(receivedBytes)
    {
      if f.None? {
        return false;
      }
      if |f.value.data| > MaxFileSize {
        return false;
      }
      file := f;
      hasChannel := true;
      accepted := true;
    }

    /**
     * `sendFile`: nothing without a file and a channel; otherwise `start`,
     * then a slice per read at offsets advancing by the chunk size while the
     * channel is open, then `end` once the offset reaches the size.
     */
    method SendFile(open: nat -> bool) returns (sent: seq<Message>)
      ensures file.None? || !hasChannel ==> sent == []
      ensures file.Some? && hasChannel ==> sent == Transmission(file.value, open)
    {
      if file.None? || !hasChannel {
        return [];
      }
      sent := Send(file.value, open);
    }

    /** `setupReceiveChannel`: start a fresh collection. */
    method SetupReceiveChannel()
      modifies this`hasChannel, this`receivedData, this`receivedBytes
      ensures Valid() && receivedData == [] && receivedBytes == 0 && hasChannel
      ensures file == old(file) && storage == old(storage) && totalBytes == old(totalBytes) && fileName == old(fileName)
    {
      hasChannel := true;
      receivedData := [];
      receivedBytes := 0;
    }

    /**
     * The channel's message handler: `start` records the announced name and
     * size, a binary message is appended and counted, `end` downloads what
     * was collected, other control messages are ignored.
     */
    method OnMessage(m: Message) returns (download: Option<Download>)
      requires Valid()
      modifies this`receivedData, this`receivedBytes, this`totalBytes, this`fileName
      ensures Valid()
      ensures receivedData == old(receivedData) + Payloads([m])
      ensures m.Start? ==> totalBytes == m.fileSize && fileName == m.fileName
      ensures !m.Start? ==> totalBytes == old(totalBytes) && fileName == old(fileName)
      ensures download.Some? <==> m.End?
      ensures m.End? ==> download == Some(Download(fileName, Flatten(receivedData)))
      ensures file == old(file) && storage == old(storage) && hasChannel == old(hasChannel)
    {
      assert [m][..0] == [];
      download := None;
      match m {
        case Start(name, size) =>
          totalBytes := size;
          fileName := name;
        case End =>
          download := Some(Download(fileName, Flatten(receivedData)));
        case OtherControl(_) =>
        case Binary(data) =>
          FlattenSnoc(receivedData, data);
          receivedData := receivedData + [data];
          receivedBytes := receivedBytes + |data|;
      }
    }

    /** Messages handled in the order they arrive: the binary payloads are collected in that order. */
    method ReceiveAll(ms: seq<Message>)
      requires Valid()
      modifies this`receivedData, this`receivedBytes, this`totalBytes, this`fileName
      ensures Valid()
      ensures receivedData == old(receivedData) + Payloads(ms)
      ensures LastStart(ms).Some? ==> fileName == LastStart(ms).value.fileName && totalBytes == LastStart(ms).value.fileSize
      ensures LastStart(ms).None? ==> fileName == old(fileName) && totalBytes == old(totalBytes)
      ensures file == old(file) && storage == old(storage)
    {
      var i := 0;
      while i < |ms|
        invariant 0 <= i <= |ms| && Valid()
        invariant receivedData == old(receivedData) + Payloads(ms[..i])
        invariant LastStart(ms[..i]).Some? ==>
          fileName == LastStart(ms[..i]).value.fileName && totalBytes == LastStart(ms[..i]).value.fileSize
        invariant LastStart(ms[..i]).None? ==> fileName == old(fileName) && totalBytes == old(totalBytes)
        invariant file == old(file) && storage == old(storage)
      {
        var _ := OnMessage(ms[i]);
        PayloadsAppend(ms[..i], [ms[i]]);
        assert ms[..i + 1] == ms[..i] + [ms[i]];
        assert ms[..i + 1][..i] == ms[..i];
        i := i + 1;
      }
      assert ms[..i] == ms;
    }

    /** `storeOffer`: write the offer under its code. */
    method StoreOffer(code: string, offer: string)
      modifies this`storage
      ensures storage == old(storage)[OfferKey(code) := offer]
      ensures GetStoredOffer(code) == Some(offer)
      ensures forall other :: other != code ==> GetStoredOffer(other) == old(GetStoredOffer(other))
      ensures file == old(file) && receivedData == old(receivedData) && receivedBytes == old(receivedBytes)
    {
      storage := storage[OfferKey(code) := offer];
    }

    /** `updateStoredOffer`: overwrite the offer under its code. */
    method UpdateStoredOffer(code: string, offer: string)
      modifies this`storage
      ensures storage == old(storage)[OfferKey(code) := offer]
      ensures GetStoredOffer(code) == Some(offer)
      ensures forall other :: other != code ==> GetStoredOffer(other) == old(GetStoredOffer(other))
      ensures file == old(file) && receivedData == old(receivedData) && receivedBytes == old(receivedBytes)
    {
      storage := storage[OfferKey(code) := offer];
    }

    /**
     * The hour-long timer `storeOffer` starts: it removes whatever is stored
     * under the code by then, an updated offer included.
     */
    method ExpireOffer(code: string)
      modifies this`storage
      ensures storage == old(storage) - {OfferKey(code)}
      ensures GetStoredOffer(code).None?
      ensures forall other :: other != code ==> GetStoredOffer(other) == old(GetStoredOffer(other))
      ensures file == old(file) && receivedData == old(receivedData) && receivedBytes == old(receivedBytes)
    {
      storage := storage - {OfferKey(code)};
    }

    /** `getStoredOffer`. */
    function GetStoredOffer(code: string): (r: Option<string>)
      reads this
      ensures r.Some? <==> OfferKey(code) in storage
      ensures r.Some? ==> r.value == storage[OfferKey(code)]
    {
      var key := OfferKey(code);
      if key in storage then Some(storage[key]) else None
    }

    /**
     * `connectToSender`: empty input is ignored; otherwise the page becomes a
     * receiver and holds the offer stored under the extracted code. A missing
     * or empty entry fails the `!offerData` test: the page reports an invalid
     * code and keeps the offer it held.
     */
    method ConnectToSender(input: string) returns (offer: Option<string>)
      modifies this`isReceiver, this`pendingOffer
      ensures ExtractCode(input).None? ==>
        offer.None? && isReceiver == old(isReceiver) && pendingOffer == old(pendingOffer)
      ensures ExtractCode(input).Some? ==>
        isReceiver && offer == GetStoredOffer(ExtractCode(input).value)
        && (IsOffer(offer) ==> pendingOffer == offer)
        && (!IsOffer(offer) ==> pendingOffer == old(pendingOffer))
      ensures storage == old(storage) && file == old(file) && hasChannel == old(hasChannel)
        && receivedData == old(receivedData) && receivedBytes == old(receivedBytes)
    {
      var code := ExtractCode(input);
      if code.None? {
        return None;
      }
      isReceiver := true;
      offer := GetStoredOffer(code.value);
      if offer.Some? && offer.value != "" {
        pendingOffer := offer;
      }
    }
  }
}
