/** Message Router requests and replies: the client's side of the codec
    (pkg/cip/message.go) and the server's, which is written inline in its two
    handlers (pkg/server/server.go).
 */
module Message {
  import opened Bytes

  datatype Request = Request(service: Byte, path: seq<Byte>, data: seq<Byte>)

  datatype Response = Response(
    service: Byte,
    reserved: Byte,
    status: Byte,
    extSize: Byte,
    ext: seq<U16>,
    data: seq<Byte>)

  // ---------- requests ----------

  /** The length of a path in 16-bit words, rounded up and kept in a byte. */
  function LenWords(path: seq<Byte>): Byte {
    Low8((|path| + 1) / 2)
  }

  function EncodedRequest(r: Request): seq<Byte> {
    [r.service, LenWords(r.path)] + r.path + r.data
  }

  method EncodeRequest(r: Request) returns (buf: seq<Byte>)
    ensures buf == EncodedRequest(r)
  {
    buf := [r.service];
    buf := buf + [LenWords(r.path)];
    buf := buf + r.path;
    if |r.data| > 0 {
      buf := buf + r.data;
    }
  }

  /** The server's reading of a request. The path is read with a single
      `Read`: cut short by the end of the data it is zero-filled, and at the
      very end of the data it is an error, even when it has no bytes.
   */
  function DecodedRequest(b: seq<Byte>): Option<Request> {
    if |b| <= 2 then None
    else
      var n := WordBytes(b[1]);
      Some(Request(b[0], ZeroFill(b[2..], n), b[2 + Filled(|b| - 2, n)..]))
  }

  method DecodeRequest(pdu: seq<Byte>) returns (r: Option<Request>)
    ensures r == DecodedRequest(pdu)
  {
    var reader := new Reader(pdu);
    var service := reader.ReadU8();
    if service.None? { return None; }
    var words := reader.ReadU8();
    if words.None? { return None; }
    var path := reader.Read(WordBytes(words.value));
    if path.None? { return None; }
    var data: seq<Byte> := [];
    var remaining := |pdu| - reader.pos;
    if remaining > 0 {
      var read := reader.Read(remaining);
      if read.None? { return None; }
      data := read.value;
    }
    assert data == pdu[2 + Filled(|pdu| - 2, WordBytes(words.value))..];
    r := Some(Request(service.value, path.value, data));
  }

  /** The requests that survive the wire, exactly. */
  predicate Transmissible(r: Request) {
    && |r.path| % 2 == 0
    && |r.path| <= 510
    && (r.path != [] || r.data != [])
  }

  lemma RequestRoundTripIff(r: Request)
    ensures DecodedRequest(EncodedRequest(r)) == Some(r) <==> Transmissible(r)
  {
    var b := EncodedRequest(r);
    assert b[2..] == r.path + r.data;
    if Transmissible(r) {
      assert WordBytes(b[1]) == |r.path|;
      assert b[2..][..|r.path|] == r.path;
      assert ZeroFill(b[2..], |r.path|) == r.path;
      assert b[2 + |r.path|..] == r.data;
    }
  }

  /** A path cut short: the server sees it padded with zeros and no data. */
  lemma ShortPathIsZeroFilled(service: Byte, words: Byte, path: seq<Byte>)
    requires 0 < |path| < WordBytes(words)
    ensures DecodedRequest([service, words] + path)
         == Some(Request(service, path + Zeros(WordBytes(words) - |path|), []))
  {
    var b := [service, words] + path;
    assert b[2..] == path && path[..|path|] == path;
    assert b[2 + |path|..] == [];
  }

  // ---------- replies ----------

  function Words(ws: seq<U16>): seq<Byte> {
    if ws == [] then [] else Put16(ws[0]) + Words(ws[1..])
  }

  lemma {:induction false} WordsLength(ws: seq<U16>)
    ensures |Words(ws)| == 2 * |ws|
  {
    if ws != [] { WordsLength(ws[1..]); }
  }

  lemma {:induction false} WordsSnoc(ws: seq<U16>, w: U16)
    ensures Words(ws + [w]) == Words(ws) + Put16(w)
  {
    if ws == [] {
      assert [w][1..] == [];
    } else {
      WordsSnoc(ws[1..], w);
      assert (ws + [w])[1..] == ws[1..] + [w];
    }
  }

  function EncodedResponse(r: Response): seq<Byte> {
    [r.service, r.reserved, r.status, r.extSize] + Words(r.ext) + r.data
  }

  /** The reply encoder that both server handlers repeat. */
  method EncodeResponse(r: Response) returns (buf: seq<Byte>)
    ensures buf == EncodedResponse(r)
  {
    buf := [r.service];
    buf := buf + [r.reserved];
    buf := buf + [r.status];
    buf := buf + [r.extSize];
    var i := 0;
    while i < |r.ext|
      invariant 0 <= i <= |r.ext|
      invariant buf == [r.service, r.reserved, r.status, r.extSize] + Words(r.ext[..i])
    {
      WordsSnoc(r.ext[..i], r.ext[i]);
      assert r.ext[..i + 1] == r.ext[..i] + [r.ext[i]];
      buf := buf + Put16(r.ext[i]);
      i := i + 1;
    }
    assert r.ext[..i] == r.ext;
    buf := buf + r.data;
  }

  function WordsOf(b: seq<Byte>, n: nat): seq<U16>
    requires 2 * n <= |b|
  {
    seq(n, i requires 0 <= i < n => Get16(b, 2 * i))
  }

  function DecodedResponse(b: seq<Byte>): Option<Response> {
    if |b| < 4 || |b| < 4 + WordBytes(b[3]) then None
    else Some(Response(b[0], b[1], b[2], b[3], WordsOf(b[4..], b[3]), b[4 + WordBytes(b[3])..]))
  }

  method DecodeResponse(data: seq<Byte>) returns (r: Option<Response>)
    ensures r == DecodedResponse(data)
  {
    var reader := new Reader(data);
    var service := reader.ReadU8();
    if service.None? { return None; }
    var reserved := reader.ReadU8();
    if reserved.None? { return None; }
    var status := reader.ReadU8();
    if status.None? { return None; }
    var extSize := reader.ReadU8();
    if extSize.None? { return None; }
    var ext: seq<U16> := [];
    while |ext| < extSize.value
      invariant |ext| <= extSize.value && reader.Valid() && reader.data == data
      invariant reader.pos == 4 + 2 * |ext|
      invariant forall i | 0 <= i < |ext| :: ext[i] == Get16(data, 4 + 2 * i)
    {
      var word := reader.ReadU16();
      if word.None? { return None; }
      ext := ext + [word.value];
    }
    forall i | 0 <= i < |ext| ensures ext[i] == Get16(data[4..], 2 * i) {
      GetSlice(data, 4, |data|, 2 * i);
    }
    assert ext == WordsOf(data[4..], extSize.value);
    var rest: seq<Byte> := [];
    var remaining := |data| - reader.pos;
    if remaining > 0 {
      var read := reader.Read(remaining);
      if read.None? { return None; }
      rest := read.value;
    }
    assert rest == data[4 + WordBytes(extSize.value)..];
    r := Some(Response(service.value, reserved.value, status.value, extSize.value, ext, rest));
  }

  lemma {:induction false} WordAt(ws: seq<U16>, tail: seq<Byte>, i: nat)
    requires i < |ws|
    ensures 2 * i + 2 <= |Words(ws)| == 2 * |ws|
    ensures Get16(Words(ws) + tail, 2 * i) == ws[i]
  {
    WordsLength(ws);
    var b := Words(ws) + tail;
    if i == 0 {
      GetPut16(b, 0, ws[0]);
    } else {
      WordAt(ws[1..], tail, i - 1);
      assert b[2..] == Words(ws[1..]) + tail;
      GetSlice(b, 2, |b|, 2 * (i - 1));
    }
  }

  lemma WordsOfWords(ws: seq<U16>, tail: seq<Byte>)
    ensures |Words(ws)| == 2 * |ws|
    ensures WordsOf(Words(ws) + tail, |ws|) == ws
  {
    WordsLength(ws);
    forall i | 0 <= i < |ws| ensures Get16(Words(ws) + tail, 2 * i) == ws[i] {
      WordAt(ws, tail, i);
    }
  }

  /** The client reads back the very reply the server built exactly when the
      extended-status count matches the words that follow it.
   */
  lemma ResponseRoundTripIff(r: Response)
    ensures DecodedResponse(EncodedResponse(r)) == Some(r) <==> r.extSize == |r.ext|
  {
    var b := EncodedResponse(r);
    if r.extSize == |r.ext| {
      assert b[4..] == Words(r.ext) + r.data;
      WordsOfWords(r.ext, r.data);
      assert b[4 + WordBytes(r.extSize)..] == r.data;
    }
  }
}
