/** The transports of src/Errbit/Writer: the connection scheme the socket
    writer dials, the HTTP/1.1 request text it writes, the 7000-byte
    packets of the asynchronous mode, and the requests the Guzzle writer
    hands to its HTTP client.  Sockets and the HTTP client are objects
    that only record what they are given. */
module Writers {
  import opened Wrappers
  import opened PhpValues
  import opened Errors
  import Notice

  /** The Hoptoad notifier route. */
  const NOTICES_PATH: string := "/notifier_api/v2/notices/"

  /** The largest asynchronous packet. */
  const CHUNK_SIZE: nat := 7000

  newtype byte = x: int | 0 <= x < 256

  // ---- the connection scheme -------------------------------------------

  /** The transport: `async` wins over `secure`. */
  function Proto(config: Config): string
  {
    if Truthy(Get(config, "async")) then "udp"
    else if Truthy(Get(config, "secure")) then "ssl"
    else "tcp"
  }

  /** `buildConnectionScheme($config)` of AbstractWriter, and the identical
      copy in SocketWriter: the transport and the host, with no port. */
  function ConnectionScheme(config: Config): string
  {
    Proto(config) + "://" + ToStr(Get(config, "host"))
  }

  /** The three cases of the scheme. */
  lemma {:induction false} ConnectionSchemeCases(config: Config)
    ensures var host := ToStr(Get(config, "host"));
            && (Truthy(Get(config, "async")) ==> ConnectionScheme(config) == "udp://" + host)
            && (!Truthy(Get(config, "async")) && Truthy(Get(config, "secure")) ==> ConnectionScheme(config) == "ssl://" + host)
            && (!Truthy(Get(config, "async")) && !Truthy(Get(config, "secure")) ==> ConnectionScheme(config) == "tcp://" + host)
  {
    var host := ToStr(Get(config, "host"));
    assert ConnectionScheme(config) == Proto(config) + "://" + host;
  }

  /** With `async` set, `secure` makes no difference; the port never
      does. */
  lemma {:induction false} ConnectionSchemeIgnores(config: Config, v: Value)
    ensures Truthy(Get(config, "async")) ==> ConnectionScheme(config["secure" := v]) == ConnectionScheme(config)
    ensures ConnectionScheme(config["port" := v]) == ConnectionScheme(config)
  {
    assert Get(config["secure" := v], "async") == Get(config, "async");
    assert Get(config["secure" := v], "host") == Get(config, "host");
    assert Get(config["port" := v], "async") == Get(config, "async");
    assert Get(config["port" := v], "secure") == Get(config, "secure");
    assert Get(config["port" := v], "host") == Get(config, "host");
  }

  // ---- UTF-8 -----------------------------------------------------------

  /** The UTF-8 encoding of one code point. */
  function EncodeChar(c: char): (r: seq<byte>)
    ensures 1 <= |r| <= 4
    ensures |r| == 1 <==> c as int < 0x80
  {
    var n := c as int;
    if n < 0x80 then [n as byte]
    else if n < 0x800 then [(0xC0 + n / 64) as byte, (0x80 + n % 64) as byte]
    else if n < 0x10000 then [(0xE0 + n / 4096) as byte, (0x80 + n / 64 % 64) as byte, (0x80 + n % 64) as byte]
    else [(0xF0 + n / 262144) as byte, (0x80 + n / 4096 % 64) as byte, (0x80 + n / 64 % 64) as byte, (0x80 + n % 64) as byte]
  }

  /** The bytes PHP's string of a document holds: its UTF-8 encoding. */
  function Utf8Encode(s: string): (r: seq<byte>)
    ensures |s| <= |r| <= 4 * |s|
  {
    if s == [] then [] else EncodeChar(s[0]) + Utf8Encode(s[1..])
  }

  predicate Continuation(b: byte)
  {
    0x80 <= b < 0xC0
  }

  /** A code point, when the value is one. */
  function ScalarOf(n: int, len: nat): Option<(char, nat)>
  {
    if 0 <= n < 0xD800 || 0xE000 <= n < 0x11_0000 then Some((n as char, len)) else None
  }

  /** The code point at the start of `bs` and the number of bytes it
      takes, or None when `bs` does not start with a well-formed
      sequence. */
  function DecodeChar(bs: seq<byte>): (r: Option<(char, nat)>)
    requires |bs| > 0
    ensures r.Some? ==> 1 <= r.value.1 <= |bs|
  {
    var b0 := bs[0] as int;
    if b0 < 0x80 then ScalarOf(b0, 1)
    else if 0xC0 <= b0 < 0xE0 && |bs| >= 2 && Continuation(bs[1]) then
      ScalarOf((b0 - 0xC0) * 64 + (bs[1] as int - 0x80), 2)
    else if 0xE0 <= b0 < 0xF0 && |bs| >= 3 && Continuation(bs[1]) && Continuation(bs[2]) then
      ScalarOf((b0 - 0xE0) * 4096 + (bs[1] as int - 0x80) * 64 + (bs[2] as int - 0x80), 3)
    else if 0xF0 <= b0 < 0xF8 && |bs| >= 4 && Continuation(bs[1]) && Continuation(bs[2]) && Continuation(bs[3]) then
      ScalarOf((b0 - 0xF0) * 262144 + (bs[1] as int - 0x80) * 4096 + (bs[2] as int - 0x80) * 64 + (bs[3] as int - 0x80), 4)
    else None
  }

  /** The string a byte sequence encodes, or None when it is not UTF-8. */
  function Utf8Decode(bs: seq<byte>): Option<string>
    decreases |bs|
  {
    if bs == [] then Some([])
    else match DecodeChar(bs)
      case None => None
      case Some((c, k)) =>
        match Utf8Decode(bs[k..])
        case None => None
        case Some(s) => Some([c] + s)
  }

  lemma {:induction false} Split64(n: int)
    requires n >= 0
    ensures n == 64 * (n / 64) + n % 64
    ensures n / 64 == 64 * (n / 4096) + n / 64 % 64
    ensures n / 4096 == 64 * (n / 262144) + n / 4096 % 64
  {
  }

  lemma {:induction false} DecodeTwo(c: char, rest: seq<byte>)
    requires 0x80 <= c as int < 0x800
    ensures DecodeChar(EncodeChar(c) + rest) == Some((c, 2))
  {
    var n := c as int;
    var e := EncodeChar(c);
    Split64(n);
    assert e[0] as int == 0xC0 + n / 64 && e[1] as int == 0x80 + n % 64;
    assert (e + rest)[1] == e[1];
  }

  lemma {:induction false} DecodeThree(c: char, rest: seq<byte>)
    requires 0x800 <= c as int < 0x10000
    ensures DecodeChar(EncodeChar(c) + rest) == Some((c, 3))
  {
    var n := c as int;
    var e := EncodeChar(c);
    Split64(n);
    assert e[0] as int - 0xE0 == n / 4096;
    assert e[1] as int - 0x80 == n / 64 % 64 && e[2] as int - 0x80 == n % 64;
    assert (e + rest)[1] == e[1] && (e + rest)[2] == e[2];
  }

  lemma {:induction false} DecodeFour(c: char, rest: seq<byte>)
    requires 0x10000 <= c as int
    ensures DecodeChar(EncodeChar(c) + rest) == Some((c, 4))
  {
    var n := c as int;
    var e := EncodeChar(c);
    Split64(n);
    assert e[0] as int - 0xF0 == n / 262144;
    assert e[1] as int - 0x80 == n / 4096 % 64 && e[2] as int - 0x80 == n / 64 % 64 && e[3] as int - 0x80 == n % 64;
    assert (e + rest)[1] == e[1] && (e + rest)[2] == e[2] && (e + rest)[3] == e[3];
  }

  /** Decoding the encoding of a code point gives it back, whatever
      follows. */
  lemma {:induction false} DecodeEncodeChar(c: char, rest: seq<byte>)
    ensures DecodeChar(EncodeChar(c) + rest) == Some((c, |EncodeChar(c)|))
  {
    var n := c as int;
    if n < 0x80 {
    } else if n < 0x800 {
      DecodeTwo(c, rest);
    } else if n < 0x10000 {
      DecodeThree(c, rest);
    } else {
      DecodeFour(c, rest);
    }
  }

  /** Decoding undoes encoding. */
  lemma {:induction false} Utf8RoundTrip(s: string)
    ensures Utf8Decode(Utf8Encode(s)) == Some(s)
  {
    if s != [] {
      var e := EncodeChar(s[0]);
      var rest := Utf8Encode(s[1..]);
      DecodeEncodeChar(s[0], rest);
      assert (e + rest)[|e|..] == rest;
      Utf8RoundTrip(s[1..]);
      assert [s[0]] + s[1..] == s;
    }
  }

  /** The encoding of a concatenation is the concatenation of the
      encodings. */
  lemma {:induction false} Utf8Append(a: string, b: string)
    ensures Utf8Encode(a + b) == Utf8Encode(a) + Utf8Encode(b)
  {
    if a != [] {
      assert (a + b)[0] == a[0] && (a + b)[1..] == a[1..] + b;
      Utf8Append(a[1..], b);
    } else {
      assert a + b == b;
    }
  }

  predicate IsAscii(s: string)
  {
    forall i :: 0 <= i < |s| ==> s[i] as int < 0x80
  }

  /** A string of ASCII characters takes one byte per character, each
      its code. */
  lemma {:induction false} AsciiEncode(s: string)
    requires IsAscii(s)
    ensures |Utf8Encode(s)| == |s|
    ensures forall i :: 0 <= i < |s| ==> Utf8Encode(s)[i] as int == s[i] as int
  {
    if s != [] {
      assert IsAscii(s[1..]) by {
        forall i | 0 <= i < |s[1..]| ensures s[1..][i] as int < 0x80 {
          assert s[1..][i] == s[i + 1];
        }
      }
      AsciiEncode(s[1..]);
      var r := Utf8Encode(s);
      assert r == [s[0] as int as byte] + Utf8Encode(s[1..]);
      forall i | 0 <= i < |s| ensures r[i] as int == s[i] as int {
        if i > 0 {
          assert r[i] == Utf8Encode(s[1..])[i - 1] && s[i] == s[1..][i - 1];
        }
      }
    }
  }

  // ---- HTTP framing ----------------------------------------------------

  /** `implode($sep, $lines)` */
  function Join(lines: seq<string>, sep: string): string
    decreases |lines|
  {
    if lines == [] then ""
    else if |lines| == 1 then lines[0]
    else lines[0] + sep + Join(lines[1..], sep)
  }

  /** A joined list of at least two lines starts with its first line and a
      separator. */
  lemma {:induction false} JoinFirst(lines: seq<string>, sep: string)
    requires |lines| >= 2
    ensures var j := Join(lines, sep);
            |j| >= |lines[0] + sep| && j[..|lines[0] + sep|] == lines[0] + sep
  {
  }

  /** Joining keeps every character of every line: the length is the lines'
      lengths and the separators'. */
  function TotalLength(lines: seq<string>): nat
  {
    if lines == [] then 0 else |lines[0]| + TotalLength(lines[1..])
  }

  lemma {:induction false} JoinLength(lines: seq<string>, sep: string)
    requires |lines| > 0
    ensures |Join(lines, sep)| == TotalLength(lines) + (|lines| - 1) * |sep|
    decreases |lines|
  {
    if |lines| > 1 {
      JoinLength(lines[1..], sep);
    }
  }

  const REQUEST_LINE: string := "POST " + NOTICES_PATH + " HTTP/1.1"

  /** The seven header lines of the synchronous request, the first being
      the request line. */
  function HeaderLines(config: Config, bodyLength: nat): seq<string>
  {
    [REQUEST_LINE,
     "Host: " + ToStr(Get(config, "host")),
     "User-Agent: " + ToStr(Get(config, "agent")),
     "Content-Type: " + "text/xml",
     "Accept: " + "text/xml, application/xml",
     "Content-Length: " + NatToString(bodyLength),
     "Connection: " + "close"]
  }

  /** The header section: the lines joined by CRLF, then the empty line. */
  function HeaderSection(config: Config, bodyLength: nat): string
  {
    Join(HeaderLines(config, bodyLength), "\r\n") + "\r\n\r\n"
  }

  /** `addHttpHeadersIfNeeded($body, $config)`: the body alone for the
      asynchronous transport, else the header section and the body. */
  function AddHttpHeadersIfNeeded(body: seq<byte>, config: Config): seq<byte>
  {
    if Truthy(Get(config, "async")) then body
    else Utf8Encode(HeaderSection(config, |body|)) + body
  }

  /** The asynchronous transport sends the body untouched. */
  lemma {:induction false} AsyncSendsBody(body: seq<byte>, config: Config)
    requires Truthy(Get(config, "async"))
    ensures AddHttpHeadersIfNeeded(body, config) == body
  {
  }

  /** Encoding keeps prefixes: the bytes of `p + t` start with those of
      `p`. */
  lemma {:induction false} EncodePrefix(p: string, t: string)
    ensures |Utf8Encode(p + t)| >= |Utf8Encode(p)| && Utf8Encode(p + t)[..|Utf8Encode(p)|] == Utf8Encode(p)
  {
    Utf8Append(p, t);
  }

  /** The header section starts with the request line and its CRLF. */
  lemma {:induction false} HeaderSectionStart(config: Config, n: nat)
    ensures var first := REQUEST_LINE + "\r\n";
            var head := HeaderSection(config, n);
            |head| >= |first| && head[..|first|] == first
  {
    var lines := HeaderLines(config, n);
    assert lines[0] == REQUEST_LINE && |lines| == 7;
    JoinFirst(lines, "\r\n");
  }

  /** The synchronous request starts with the request line (section 3 of
      RFC 9112). */
  lemma {:induction false} SyncStartsWithRequestLine(body: seq<byte>, config: Config)
    requires !Truthy(Get(config, "async"))
    ensures var r := AddHttpHeadersIfNeeded(body, config);
            var first := Utf8Encode(REQUEST_LINE + "\r\n");
            |r| >= |first| && r[..|first|] == first
  {
    var head := HeaderSection(config, |body|);
    var first := REQUEST_LINE + "\r\n";
    HeaderSectionStart(config, |body|);
    var tail := head[|first|..];
    assert head == first + tail;
    EncodePrefix(first, tail);
    var eh := Utf8Encode(head);
    assert (eh + body)[..|Utf8Encode(first)|] == eh[..|Utf8Encode(first)|];
  }

  /** The synchronous request is the header section, whose bytes end with
      the empty line CRLF CRLF (section 2.1 of RFC 9112), and then the
      body. */
  lemma {:induction false} SyncEndsWithBody(body: seq<byte>, config: Config)
    requires !Truthy(Get(config, "async"))
    ensures var r := AddHttpHeadersIfNeeded(body, config);
            var eh := Utf8Encode(HeaderSection(config, |body|));
            && r == eh + body
            && |eh| >= 4 && r[|eh| - 4..|eh|] == [13, 10, 13, 10]
            && r[|eh|..] == body
  {
    var joined := Join(HeaderLines(config, |body|), "\r\n");
    Utf8Append(joined, "\r\n\r\n");
    AsciiEncode("\r\n\r\n");
    var eh := Utf8Encode(HeaderSection(config, |body|));
    assert eh[|eh| - 4..] == Utf8Encode("\r\n\r\n");
    assert (eh + body)[|eh| - 4..|eh|] == eh[|eh| - 4..];
    assert (eh + body)[|eh|..] == body;
  }

  /** The Content-Length header states the number of bytes of the body,
      and its digits read back as that number. */
  lemma {:induction false} ContentLengthIsBodySize(body: seq<byte>, config: Config)
    ensures var line := HeaderLines(config, |body|)[5];
            var digits := NatToString(|body|);
            && line == "Content-Length: " + digits
            && DigitsValue(digits) == |body|
  {
    NatToStringRoundTrip(|body|);
  }

  /** A reader that takes the header section and then Content-Length bytes
      gets exactly the body. */
  lemma {:induction false} ContentLengthDelimitsBody(body: seq<byte>, config: Config)
    requires !Truthy(Get(config, "async"))
    ensures var r := AddHttpHeadersIfNeeded(body, config);
            var headBytes := |Utf8Encode(HeaderSection(config, |body|))|;
            var n := DigitsValue(NatToString(|body|));
            headBytes + n == |r| && r[headBytes..headBytes + n] == body
  {
    NatToStringRoundTrip(|body|);
    var eh := Utf8Encode(HeaderSection(config, |body|));
    assert (eh + body)[|eh|..|eh| + |body|] == body;
  }

  // ---- chunks and packets ---------------------------------------------

  /** `str_split($payload, $n)` on a non-empty payload. */
  function Chunks(bs: seq<byte>, n: nat): seq<seq<byte>>
    requires n > 0
    decreases |bs|
  {
    if |bs| <= n then [bs] else [bs[..n]] + Chunks(bs[n..], n)
  }

  function Flatten(ss: seq<seq<byte>>): seq<byte>
  {
    if ss == [] then [] else ss[0] + Flatten(ss[1..])
  }

  /** The chunks put back together are the payload. */
  lemma {:induction false} ChunksFlatten(bs: seq<byte>, n: nat)
    requires n > 0
    ensures Flatten(Chunks(bs, n)) == bs
    decreases |bs|
  {
    if |bs| <= n {
      assert Flatten([bs]) == bs + Flatten([]);
    } else {
      var cs := Chunks(bs, n);
      assert cs[0] == bs[..n] && cs[1..] == Chunks(bs[n..], n);
      ChunksFlatten(bs[n..], n);
      assert bs[..n] + bs[n..] == bs;
    }
  }

  /** Every chunk of a non-empty payload holds 1 to `n` bytes, all but the
      last exactly `n`, and there are as many as `n`-byte pieces are needed
      to cover the payload. */
  lemma {:induction false} ChunksSizes(bs: seq<byte>, n: nat)
    requires n > 0 && |bs| > 0
    ensures var cs := Chunks(bs, n);
            && |cs| > 0
            && (|cs| - 1) * n < |bs| <= |cs| * n
            && (forall i :: 0 <= i < |cs| ==> 0 < |cs[i]| <= n)
            && (forall i :: 0 <= i < |cs| - 1 ==> |cs[i]| == n)
    decreases |bs|
  {
    var cs := Chunks(bs, n);
    if |bs| > n {
      var rest := Chunks(bs[n..], n);
      ChunksSizes(bs[n..], n);
      assert cs == [bs[..n]] + rest;
      assert |cs| * n == |rest| * n + n;
      forall i | 0 <= i < |cs| ensures 0 < |cs[i]| <= n && (i < |cs| - 1 ==> |cs[i]| == n) {
        if i > 0 {
          assert cs[i] == rest[i - 1];
        }
      }
    }
  }

  /** One fwrite(): an unframed payload, or a packet of the asynchronous
      transport, which `json_encode` turns into text. */
  datatype Fragment = Raw(bytes: seq<byte>) | Packet(messageId: string, data: seq<byte>, last: bool)

  /** `fwrite($socket, json_encode($packet))` for one chunk.  `json_encode`
      gives false for a chunk that is not valid UTF-8 (one that cuts a
      multi-byte character), and `fwrite` writes false as the empty string. */
  function PacketFor(messageId: string, chunk: seq<byte>, last: bool): Fragment
  {
    if Utf8Decode(chunk).Some? then Packet(messageId, chunk, last) else Raw([])
  }

  /** The writes of the chunked transport, one per chunk, in chunk order. */
  function Packets(chunks: seq<seq<byte>>, messageId: string): (r: seq<Fragment>)
    ensures |r| == |chunks|
  {
    seq(|chunks|, i requires 0 <= i < |chunks| => PacketFor(messageId, chunks[i], i == |chunks| - 1))
  }

  /** Whether the payload goes out in packets. */
  predicate Chunked(payload: seq<byte>, config: Config)
  {
    |payload| > CHUNK_SIZE && Truthy(Get(config, "async"))
  }

  /** Everything one `write` sends through an open socket. */
  function Fragments(payload: seq<byte>, config: Config, messageId: string): seq<Fragment>
  {
    if Chunked(payload, config) then Packets(Chunks(payload, CHUNK_SIZE), messageId) else [Raw(payload)]
  }

  function PacketData(fs: seq<Fragment>): seq<seq<byte>>
  {
    seq(|fs|, i requires 0 <= i < |fs| => if fs[i].Packet? then fs[i].data else fs[i].bytes)
  }

  /** A valid UTF-8 sequence never ends in a lead byte: its last byte is
      ASCII or a continuation byte. */
  lemma {:induction false} Utf8EndsWell(bs: seq<byte>)
    requires bs != [] && Utf8Decode(bs).Some?
    ensures bs[|bs| - 1] < 0x80 || Continuation(bs[|bs| - 1])
    decreases |bs|
  {
    var k := DecodeChar(bs).value.1;
    if k < |bs| {
      Utf8EndsWell(bs[k..]);
      assert bs[k..][|bs[k..]| - 1] == bs[|bs| - 1];
    }
  }

  /** Dropping some of the pieces, none of them empty, changes what they
      put together. */
  lemma {:induction false} FlattenDropped(ds: seq<seq<byte>>, cs: seq<seq<byte>>)
    requires |ds| == |cs|
    requires forall i :: 0 <= i < |cs| ==> ds[i] == cs[i] || (ds[i] == [] && cs[i] != [])
    ensures |Flatten(ds)| <= |Flatten(cs)|
    ensures Flatten(ds) == Flatten(cs) <==> ds == cs
    decreases |cs|
  {
    if cs != [] {
      assert forall i :: 0 <= i < |cs| - 1 ==> ds[1..][i] == ds[i + 1] && cs[1..][i] == cs[i + 1];
      FlattenDropped(ds[1..], cs[1..]);
      assert ds == [ds[0]] + ds[1..] && cs == [cs[0]] + cs[1..];
      if ds[0] == cs[0] {
        var x := Flatten(ds[1..]);
        var y := Flatten(cs[1..]);
        assert (cs[0] + x)[|cs[0]|..] == x && (cs[0] + y)[|cs[0]|..] == y;
      }
    }
  }

  /** The writes of non-empty chunks: a packet with its chunk exactly for
      the valid UTF-8 ones, nothing for the others, and their data puts the
      chunks back together exactly when every chunk gave a packet. */
  lemma {:induction false} PacketsOfChunks(cs: seq<seq<byte>>, messageId: string)
    requires forall i :: 0 <= i < |cs| ==> cs[i] != []
    ensures var fs := Packets(cs, messageId);
            && (forall i :: 0 <= i < |fs| ==> (fs[i].Packet? <==> Utf8Decode(cs[i]).Some?))
            && (forall i :: 0 <= i < |fs| ==> fs[i].Packet? ==> fs[i] == Packet(messageId, cs[i], i == |fs| - 1))
            && (forall i :: 0 <= i < |fs| ==> fs[i].Raw? ==> fs[i].bytes == [])
            && (Flatten(PacketData(fs)) == Flatten(cs) <==> forall i :: 0 <= i < |fs| ==> fs[i].Packet?)
  {
    var fs := Packets(cs, messageId);
    var ds := PacketData(fs);
    assert forall i :: 0 <= i < |fs| ==> ds[i] == (if fs[i].Packet? then cs[i] else []);
    FlattenDropped(ds, cs);
    assert ds == cs <==> forall i :: 0 <= i < |fs| ==> fs[i].Packet? by {
      if ds == cs {
        assert forall i :: 0 <= i < |fs| ==> ds[i] == cs[i];
      }
    }
  }

  /** The packets: all but the last chunk full, one write per chunk, each
      packet sharing the message id, only the final write marked last, as
      many as ceil(length / 7000).  A chunk that is not valid UTF-8 is
      written as nothing, and the packets put the payload back together
      exactly when no chunk is lost. */
  lemma {:induction false} PacketsReassemble(payload: seq<byte>, config: Config, messageId: string)
    requires Chunked(payload, config)
    ensures var fs := Fragments(payload, config, messageId);
            var cs := Chunks(payload, CHUNK_SIZE);
            && |fs| == |cs| == (|payload| + CHUNK_SIZE - 1) / CHUNK_SIZE
            && |fs| >= 2
            && (forall i :: 0 <= i < |cs| ==> 0 < |cs[i]| <= CHUNK_SIZE)
            && (forall i :: 0 <= i < |cs| - 1 ==> |cs[i]| == CHUNK_SIZE)
            && (forall i :: 0 <= i < |fs| ==> (fs[i].Packet? <==> Utf8Decode(cs[i]).Some?))
            && (forall i :: 0 <= i < |fs| ==> fs[i].Packet? ==> fs[i] == Packet(messageId, cs[i], i == |fs| - 1))
            && (forall i :: 0 <= i < |fs| ==> fs[i].Raw? ==> fs[i].bytes == [])
            && (Flatten(PacketData(fs)) == payload <==> forall i :: 0 <= i < |fs| ==> fs[i].Packet?)
  {
    var cs := Chunks(payload, CHUNK_SIZE);
    ChunksSizes(payload, CHUNK_SIZE);
    ChunksFlatten(payload, CHUNK_SIZE);
    PacketsOfChunks(cs, messageId);
  }

  /** A chunk that ends in the lead byte of a multi-byte character (the
      character straddles the 7000-byte cut) is lost, and the packets no
      longer reassemble the payload. */
  lemma {:induction false} PacketLost(payload: seq<byte>, config: Config, messageId: string, i: nat)
    requires Chunked(payload, config)
    requires i < |Chunks(payload, CHUNK_SIZE)|
    requires var c := Chunks(payload, CHUNK_SIZE)[i]; c != [] && c[|c| - 1] >= 0xC0
    ensures Fragments(payload, config, messageId)[i] == Raw([])
    ensures Flatten(PacketData(Fragments(payload, config, messageId))) != payload
  {
    var c := Chunks(payload, CHUNK_SIZE)[i];
    if Utf8Decode(c).Some? {
      Utf8EndsWell(c);
    }
    PacketsReassemble(payload, config, messageId);
  }

  /** A concrete case: 6999 ASCII bytes followed by "é" (C3 A9), sent
      asynchronously.  The cut falls inside the "é", and both packets are
      lost. */
  lemma {:induction false} PacketLostExample(messageId: string)
    ensures var payload := seq(6999, _ => 0x61 as byte) + [0xC3, 0xA9];
            var config := map["async" := VBool(true)];
            && Chunked(payload, config)
            && Fragments(payload, config, messageId) == [Raw([]), Raw([])]
  {
    var payload := seq(6999, _ => 0x61 as byte) + [0xC3, 0xA9];
    var config := map["async" := VBool(true)];
    var cs := Chunks(payload, CHUNK_SIZE);
    assert cs == [payload[..CHUNK_SIZE], [0xA9]] by {
      assert |payload| == CHUNK_SIZE + 1 && payload[CHUNK_SIZE..] == [0xA9];
      assert Chunks([0xA9], CHUNK_SIZE) == [[0xA9]];
      assert cs == [payload[..CHUNK_SIZE]] + Chunks([0xA9], CHUNK_SIZE);
    }
    PacketLost(payload, config, messageId, 0);
    assert Utf8Decode([0xA9]).None? by {
      assert DecodeChar([0xA9]).None?;
    }
  }

  /** The number of leading characters of `s` whose encoding fits in
      `budget` bytes. */
  function Fit(s: string, budget: nat): (k: nat)
    ensures k <= |s|
    ensures s != [] && budget >= 4 ==> k >= 1
    decreases |s|
  {
    if s == [] || |EncodeChar(s[0])| > budget then 0 else 1 + Fit(s[1..], budget - |EncodeChar(s[0])|)
  }

  lemma {:induction false} FitFits(s: string, budget: nat)
    ensures |Utf8Encode(s[..Fit(s, budget)])| <= budget
    decreases |s|
  {
    var k := Fit(s, budget);
    if k > 0 {
      FitFits(s[1..], budget - |EncodeChar(s[0])|);
      assert s[..k][0] == s[0] && s[..k][1..] == s[1..][..k - 1];
    }
  }

  /** Chunks cut between characters: each holds as many whole characters
      as fit in `n` bytes (cutting like `mb_strcut`). */
  function CharChunks(s: string, n: nat): seq<seq<byte>>
    requires n >= 4
    decreases |s|
  {
    if s == [] then [] else [Utf8Encode(s[..Fit(s, n)])] + CharChunks(s[Fit(s, n)..], n)
  }

  /** The first chunk cut between characters: whole characters, at least
      one, in at most `n` bytes. */
  lemma {:induction false} FirstCharChunk(s: string, n: nat)
    requires s != [] && n >= 4
    ensures var c := Utf8Encode(s[..Fit(s, n)]);
            0 < |c| <= n && Utf8Decode(c).Some?
  {
    var k := Fit(s, n);
    FitFits(s, n);
    Utf8RoundTrip(s[..k]);
    assert Utf8Encode(s[..k]) == EncodeChar(s[0]) + Utf8Encode(s[..k][1..]);
  }

  /** The chunks cut between characters put back together are the
      encoding of the string. */
  lemma {:induction false} CharChunksFlatten(s: string, n: nat)
    requires n >= 4
    ensures Flatten(CharChunks(s, n)) == Utf8Encode(s)
    decreases |s|
  {
    if s != [] {
      var k := Fit(s, n);
      var cs := CharChunks(s, n);
      CharChunksFlatten(s[k..], n);
      Utf8Append(s[..k], s[k..]);
      assert s[..k] + s[k..] == s;
      assert cs[0] == Utf8Encode(s[..k]) && cs[1..] == CharChunks(s[k..], n);
    }
  }

  /** Cut between characters, every chunk is a non-empty piece of valid
      UTF-8 of at most `n` bytes, and together they are the encoding of the
      string. */
  lemma {:induction false} CharChunksValid(s: string, n: nat)
    requires n >= 4
    ensures var cs := CharChunks(s, n);
            && Flatten(cs) == Utf8Encode(s)
            && (forall i :: 0 <= i < |cs| ==> 0 < |cs[i]| <= n && Utf8Decode(cs[i]).Some?)
    decreases |s|
  {
    CharChunksFlatten(s, n);
    if s != [] {
      var k := Fit(s, n);
      var cs := CharChunks(s, n);
      var rest := CharChunks(s[k..], n);
      CharChunksValid(s[k..], n);
      FirstCharChunk(s, n);
      assert cs == [Utf8Encode(s[..k])] + rest;
      assert forall i :: 1 <= i < |cs| ==> cs[i] == rest[i - 1];
    }
  }

  /** The transport the source evidently intends: with the payload cut
      between characters, `json_encode` accepts every chunk, so one packet
      goes out per chunk, each with the message id, only the final one
      marked last, and the packets reassemble the payload. */
  lemma {:induction false} CharPacketsReassemble(s: string, messageId: string)
    ensures var cs := CharChunks(s, CHUNK_SIZE);
            var fs := Packets(cs, messageId);
            && (forall i :: 0 <= i < |cs| ==> 0 < |cs[i]| <= CHUNK_SIZE)
            && (forall i :: 0 <= i < |fs| ==> fs[i] == Packet(messageId, cs[i], i == |fs| - 1))
            && Flatten(PacketData(fs)) == Utf8Encode(s)
  {
    var cs := CharChunks(s, CHUNK_SIZE);
    CharChunksValid(s, CHUNK_SIZE);
    PacketsOfChunks(cs, messageId);
  }

  /** Without chunking the payload goes out whole, in one write. */
  lemma {:induction false} UnchunkedIsOneWrite(payload: seq<byte>, config: Config, messageId: string)
    requires !Chunked(payload, config)
    ensures Fragments(payload, config, messageId) == [Raw(payload)]
  {
  }

  // ---- the socket writer -----------------------------------------------

  /** What `fsockopen` is asked to open. */
  datatype Dial = Dial(target: string, port: Value, timeout: Value)

  /** An open socket: the fragments written to it, its write timeout and
      whether it has been closed. */
  class Socket {
    var sent: seq<Fragment>
    var timeout: Value
    var closed: bool

    constructor()
      ensures sent == [] && timeout == VNull && !closed
    {
      sent := [];
      timeout := VNull;
      closed := false;
    }

    /** `stream_set_timeout($socket, $t)` */
    method SetTimeout(t: Value)
      modifies this
      ensures timeout == t && sent == old(sent) && closed == old(closed)
    {
      timeout := t;
    }

    /** `fwrite($socket, $f)` */
    method Send(f: Fragment)
      modifies this
      ensures sent == old(sent) + [f] && timeout == old(timeout) && closed == old(closed)
    {
      sent := sent + [f];
    }

    /** `fclose($socket)` */
    method Close()
      modifies this
      ensures closed && sent == old(sent) && timeout == old(timeout)
    {
      closed := true;
    }
  }

  /** The notice document for an exception and the writer's config, as
      bytes. */
  function NoticeBytes(heap: Heap, h: Notice.History, ex: Record, config: Config, rt: Notice.Runtime, rx: Notice.Regex): seq<byte>
  {
    Utf8Encode(Notice.NoticeXml(heap, h, ex, Notice.FilteredOptions(Notice.MergedOptions(rt, config), rx.matches), rx.replace))
  }

  /** The history after rendering that notice. */
  function NoticeHistory(heap: Heap, h: Notice.History, ex: Record, config: Config, rt: Notice.Runtime, rx: Notice.Regex): Notice.History
  {
    Notice.NoticeNode(heap, h, ex, Notice.FilteredOptions(Notice.MergedOptions(rt, config), rx.matches), rx.replace).1
  }

  /** `buildNoticeFor($exception, $options)`:
      `Notice::forException($exception, $options)->asXml()`. */
  method BuildNoticeFor(heap: Heap, reg: Notice.HashRegistry, ex: Record, config: Config, rt: Notice.Runtime, rx: Notice.Regex)
    returns (xml: string)
    modifies reg
    ensures xml == Notice.NoticeXml(heap, old(reg.hashes), ex, Notice.FilteredOptions(Notice.MergedOptions(rt, config), rx.matches), rx.replace)
    ensures reg.hashes == NoticeHistory(heap, old(reg.hashes), ex, config, rt, rx)
  {
    var n := Notice.ForException(ex, rt, config, rx);
    xml := n.AsXml(heap, reg);
  }

  class SocketWriter {
    constructor()
    {
    }

    /** `buildPayload($exception, $config)`: the notice, framed for the
        transport. */
    method BuildPayload(heap: Heap, reg: Notice.HashRegistry, ex: Record, config: Config, rt: Notice.Runtime, rx: Notice.Regex)
      returns (payload: seq<byte>)
      modifies reg
      ensures payload == AddHttpHeadersIfNeeded(NoticeBytes(heap, old(reg.hashes), ex, config, rt, rx), config)
      ensures reg.hashes == NoticeHistory(heap, old(reg.hashes), ex, config, rt, rx)
    {
      var xml := BuildNoticeFor(heap, reg, ex, config, rt, rx);
      payload := AddHttpHeadersIfNeeded(Utf8Encode(xml), config);
    }

    /** `write($exception, $config)`.  `sock` is what `fsockopen` returned
        for `dial` (null when it failed) and `messageId` what `uniqid()`
        would return.  Nothing is built or sent without a socket; with
        one, the timeout is set, the fragments are written in order and
        the socket is closed. */
    method Write(heap: Heap, reg: Notice.HashRegistry, ex: Record, config: Config, rt: Notice.Runtime, rx: Notice.Regex,
                 sock: Socket?, messageId: string)
      returns (dial: Dial)
      modifies reg, sock
      ensures dial == Dial(ConnectionScheme(config), Get(config, "port"), Get(config, "connect_timeout"))
      ensures sock == null ==> reg.hashes == old(reg.hashes)
      ensures sock != null ==>
                var payload := AddHttpHeadersIfNeeded(NoticeBytes(heap, old(reg.hashes), ex, config, rt, rx), config);
                && sock.sent == old(sock.sent) + Fragments(payload, config, messageId)
                && sock.timeout == Get(config, "write_timeout") && sock.closed
                && reg.hashes == NoticeHistory(heap, old(reg.hashes), ex, config, rt, rx)
    {
      dial := Dial(ConnectionScheme(config), Get(config, "port"), Get(config, "connect_timeout"));
      if sock != null {
        sock.SetTimeout(Get(config, "write_timeout"));
        var payload := BuildPayload(heap, reg, ex, config, rt, rx);
        Transmit(sock, payload, config, messageId);
        sock.Close();
      }
    }

    /** The packets when the payload is long and the transport
        asynchronous, else one write of the whole payload. */
    method Transmit(sock: Socket, payload: seq<byte>, config: Config, messageId: string)
      modifies sock
      ensures sock.sent == old(sock.sent) + Fragments(payload, config, messageId)
      ensures sock.timeout == old(sock.timeout) && sock.closed == old(sock.closed)
    {
      if |payload| > CHUNK_SIZE && Truthy(Get(config, "async")) {
        SendPackets(sock, payload, messageId);
      } else {
        sock.Send(Raw(payload));
      }
    }

    /** The `foreach` over the chunks: one packet each, the last one
        marked. */
    method SendPackets(sock: Socket, payload: seq<byte>, messageId: string)
      modifies sock
      ensures sock.sent == old(sock.sent) + Packets(Chunks(payload, CHUNK_SIZE), messageId)
      ensures sock.timeout == old(sock.timeout) && sock.closed == old(sock.closed)
    {
      var chunks := Chunks(payload, CHUNK_SIZE);
      ghost var all := Packets(chunks, messageId);
      var idx := 0;
      while idx < |chunks|
        invariant 0 <= idx <= |chunks|
        invariant sock.sent == old(sock.sent) + all[..idx]
        invariant sock.timeout == old(sock.timeout) && sock.closed == old(sock.closed)
      {
        var last := false;
        if idx == |chunks| - 1 {
          last := true;
        }
        sock.Send(PacketFor(messageId, chunks[idx], last));
        assert all[..idx + 1] == all[..idx] + [all[idx]];
        idx := idx + 1;
      }
      assert all[..idx] == all;
    }
  }

  // ---- the Guzzle writer -----------------------------------------------

  /** `buildConnectionScheme($config)` of GuzzleWriter: http or https, the
      host, and the port when one is set. */
  function GuzzleScheme(config: Config): string
  {
    (if Truthy(Get(config, "secure")) then "https" else "http") + "://" + ToStr(Get(config, "host"))
    + (if IssetAt(config, "port") then ":" + ToStr(config["port"]) else "")
  }

  /** The port suffix is there exactly when the port is set; `async` plays
      no part. */
  lemma {:induction false} GuzzleSchemePort(config: Config, v: Value)
    ensures IssetAt(config, "port") ==> GuzzleScheme(config) == GuzzleScheme(config - {"port"}) + ":" + ToStr(config["port"])
    ensures !IssetAt(config, "port") ==> GuzzleScheme(config) == GuzzleScheme(config - {"port"})
    ensures GuzzleScheme(config["async" := v]) == GuzzleScheme(config)
  {
    var c := config - {"port"};
    assert Get(c, "secure") == Get(config, "secure") && Get(c, "host") == Get(config, "host");
    assert !IssetAt(c, "port");
    var d := config["async" := v];
    assert Get(d, "secure") == Get(config, "secure") && Get(d, "host") == Get(config, "host");
    assert IssetAt(d, "port") == IssetAt(config, "port");
  }

  /** https exactly for a secure config. */
  lemma {:induction false} GuzzleSchemeSecure(config: Config)
    ensures Truthy(Get(config, "secure")) <==> |GuzzleScheme(config)| >= 5 && GuzzleScheme(config)[..5] == "https"
  {
    var s := GuzzleScheme(config);
    if !Truthy(Get(config, "secure")) {
      assert s[4] == ':';
    }
  }

  /** A request handed to the HTTP client. */
  datatype Request = Request(async: bool, verb: string, uri: string, options: Value)

  const GuzzleHeaders: Value :=
    VArr([(KStr("Content-Type"), VStr("text/xml")), (KStr("Accept"), VStr("text/xml, application/xml"))])

  /** The request options: the body, the timeout under the key the source
      spells 'connect_timout', and the two headers. */
  function RequestOptions(body: string, config: Config): Value
  {
    VArr([(KStr("body"), VStr(body)), (KStr("connect_timout"), Get(config, "connect_timeout")), (KStr("headers"), GuzzleHeaders)])
  }

  /** The request `write` hands over for a notice body. */
  function GuzzleRequest(config: Config, body: string): Request
  {
    Request(Truthy(Get(config, "async")), "POST", GuzzleScheme(config) + NOTICES_PATH, RequestOptions(body, config))
  }

  /** A lookup in a PHP array of three string keys. */
  lemma {:induction false} LookupThree(a: string, b: string, c: string, va: Value, vb: Value, vc: Value, k: string)
    ensures Lookup(VArr([(KStr(a), va), (KStr(b), vb), (KStr(c), vc)]), k)
            == if k == a then va else if k == b then vb else if k == c then vc else VNull
  {
    var es := [(KStr(a), va), (KStr(b), vb), (KStr(c), vc)];
    assert es[1..] == [(KStr(b), vb), (KStr(c), vc)] && es[1..][1..] == [(KStr(c), vc)] && es[1..][1..][1..] == [];
    assert LookupEntries(es[1..][1..][1..], KStr(k)) == VNull;
    assert LookupEntries(es[1..][1..], KStr(k)) == if k == c then vc else VNull;
    assert LookupEntries(es[1..], KStr(k)) == if k == b then vb else if k == c then vc else VNull;
  }

  /** What the options hold, and that the timeout is not under
      'connect_timeout', the name the HTTP client looks for. */
  lemma {:induction false} RequestOptionsFields(body: string, config: Config)
    ensures var o := RequestOptions(body, config);
            && Lookup(o, "body") == VStr(body)
            && Lookup(o, "connect_timout") == Get(config, "connect_timeout")
            && Lookup(o, "connect_timeout") == VNull
            && Lookup(o, "headers") == GuzzleHeaders
            && Lookup(GuzzleHeaders, "Content-Type") == VStr("text/xml")
            && Lookup(GuzzleHeaders, "Accept") == VStr("text/xml, application/xml")
  {
    var t := Get(config, "connect_timeout");
    LookupThree("body", "connect_timout", "headers", VStr(body), t, GuzzleHeaders, "body");
    LookupThree("body", "connect_timout", "headers", VStr(body), t, GuzzleHeaders, "connect_timout");
    LookupThree("body", "connect_timout", "headers", VStr(body), t, GuzzleHeaders, "connect_timeout");
    LookupThree("body", "connect_timout", "headers", VStr(body), t, GuzzleHeaders, "headers");
    var hs := GuzzleHeaders.entries;
    assert hs[1..] == [(KStr("Accept"), VStr("text/xml, application/xml"))];
  }

  /** The HTTP client: it records the requests it is given. */
  class HttpClient {
    var requests: seq<Request>

    constructor()
      ensures requests == []
    {
      requests := [];
    }

    /** `request($verb, $uri, $options)` */
    method Send(verb: string, uri: string, options: Value)
      modifies this
      ensures requests == old(requests) + [Request(false, verb, uri, options)]
    {
      requests := requests + [Request(false, verb, uri, options)];
    }

    /** `requestAsync($verb, $uri, $options)` */
    method SendAsync(verb: string, uri: string, options: Value)
      modifies this
      ensures requests == old(requests) + [Request(true, verb, uri, options)]
    {
      requests := requests + [Request(true, verb, uri, options)];
    }
  }

  class GuzzleWriter {
    const client: HttpClient

    constructor(client: HttpClient)
      ensures this.client == client
    {
      this.client := client;
    }

    /** `write($exception, $config)`: one request, asynchronous exactly when
        `async` is set, carrying the notice document. */
    method Write(heap: Heap, reg: Notice.HashRegistry, ex: Record, config: Config, rt: Notice.Runtime, rx: Notice.Regex)
      modifies client, reg
      ensures var xml := Notice.NoticeXml(heap, old(reg.hashes), ex, Notice.FilteredOptions(Notice.MergedOptions(rt, config), rx.matches), rx.replace);
              client.requests == old(client.requests) + [GuzzleRequest(config, xml)]
      ensures reg.hashes == NoticeHistory(heap, old(reg.hashes), ex, config, rt, rx)
    {
      if Truthy(Get(config, "async")) {
        AsyncWrite(heap, reg, ex, config, rt, rx);
      } else {
        SynchronousWrite(heap, reg, ex, config, rt, rx);
      }
    }

    method SynchronousWrite(heap: Heap, reg: Notice.HashRegistry, ex: Record, config: Config, rt: Notice.Runtime, rx: Notice.Regex)
      modifies client, reg
      ensures var xml := Notice.NoticeXml(heap, old(reg.hashes), ex, Notice.FilteredOptions(Notice.MergedOptions(rt, config), rx.matches), rx.replace);
              client.requests == old(client.requests) + [Request(false, "POST", GuzzleScheme(config) + NOTICES_PATH, RequestOptions(xml, config))]
      ensures reg.hashes == NoticeHistory(heap, old(reg.hashes), ex, config, rt, rx)
    {
      var uri := GuzzleScheme(config);
      var body := BuildNoticeFor(heap, reg, ex, config, rt, rx);
      client.Send("POST", uri + NOTICES_PATH, RequestOptions(body, config));
    }

    method AsyncWrite(heap: Heap, reg: Notice.HashRegistry, ex: Record, config: Config, rt: Notice.Runtime, rx: Notice.Regex)
      modifies client, reg
      ensures var xml := Notice.NoticeXml(heap, old(reg.hashes), ex, Notice.FilteredOptions(Notice.MergedOptions(rt, config), rx.matches), rx.replace);
              client.requests == old(client.requests) + [Request(true, "POST", GuzzleScheme(config) + NOTICES_PATH, RequestOptions(xml, config))]
      ensures reg.hashes == NoticeHistory(heap, old(reg.hashes), ex, config, rt, rx)
    {
      var uri := GuzzleScheme(config);
      var body := BuildNoticeFor(heap, reg, ex, config, rt, rx);
      client.SendAsync("POST", uri + NOTICES_PATH, RequestOptions(body, config));
    }
  }
}
