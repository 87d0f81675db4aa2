/** Serving slices of encrypted files over HTTP (server/filecrypt.go). */
module RangeServing {
  import opened Common
  import opened Text
  import opened FileCrypt

  // ── The Range header ────────────────────────────────────────────────────

  /** An inclusive byte range. */
  datatype Range = Range(start: int, end: int)

  const RANGE_UNIT := "bytes="

  /** parseSingleRange: None means that the header is ignored and the whole file is served. */
  function ParseSingleRange(header: string, size: nat): (r: Option<Range>)
    ensures r.Some? && size > 0 ==> 0 <= r.value.start <= r.value.end < size
  {
    if !(RANGE_UNIT <= header) then None
    else
      var spec := header[|RANGE_UNIT|..];
      if ',' in spec then None
      else
        match IndexOf(spec, '-')
        case None => None
        case Some(i) =>
          var startText, endText := TrimSpace(spec[..i]), TrimSpace(spec[i + 1..]);
          if startText == "" then ParseSuffix(endText, size) else ParseFrom(startText, endText, size)
  }

  function ParseSuffix(endText: string, size: nat): Option<Range> {
    match ParseInt(endText)
    case None => None
    case Some(n) =>
      if n <= 0 then None
      else Some(Range(size - (if n > size then size else n), size - 1))
  }

  function ParseFrom(startText: string, endText: string, size: nat): Option<Range> {
    match ParseInt(startText)
    case None => None
    case Some(s) =>
      if s < 0 || s >= size then None
      else if endText == "" then Some(Range(s, size - 1))
      else
        match ParseInt(endText)
        case None => None
        case Some(e) => if e < s then None else Some(Range(s, if e >= size then size - 1 else e))
  }

  /** The three forms of a single byte range in section 14.1.2 of RFC 9110. */
  datatype RangeSpec = Span(first: nat, last: nat) | From(first: nat) | Suffix(length: nat)

  function Print(spec: RangeSpec): string {
    RANGE_UNIT + match spec
    case Span(first, last) => Decimal(first) + "-" + Decimal(last)
    case From(first) => Decimal(first) + "-"
    case Suffix(length) => "-" + Decimal(length)
  }

  /** What the RFC makes of a range against a representation of `size` bytes; None is invalid or unsatisfiable. */
  ghost function Selected(spec: RangeSpec, size: nat): Option<Range> {
    match spec
    case Span(first, last) =>
      if last < first || first >= size then None else Some(Range(first, if last < size then last else size - 1))
    case From(first) => if first >= size then None else Some(Range(first, size - 1))
    case Suffix(length) => if length == 0 then None else Some(Range(if length < size then size - length else 0, size - 1))
  }

  /** The number after the dash fits a signed 64-bit integer, or the range starts past the end anyway. */
  predicate FitsInt64(spec: RangeSpec, size: nat) {
    match spec
    case Span(first, last) => last <= MAX_INT64 || first >= size
    case From(first) => true
    case Suffix(length) => length <= MAX_INT64
  }

  lemma {:induction false} SplitAtDash(a: string, b: string)
    requires '-' !in a
    ensures IndexOf(a + "-" + b, '-') == Some(|a|)
  {
    if a == "" {
      assert (a + "-" + b)[0] == '-';
    } else {
      assert (a + "-" + b)[1..] == a[1..] + "-" + b;
      SplitAtDash(a[1..], b);
    }
  }

  lemma ParsesNumbersAroundDash(before: string, after: string, size: nat)
    requires AllDigits(before) && TrimSpace(before) == before
    requires AllDigits(after) && TrimSpace(after) == after
    ensures ParseSingleRange(RANGE_UNIT + (before + "-" + after), size)
         == if before == "" then ParseSuffix(after, size) else ParseFrom(before, after, size)
  {
    var spec := before + "-" + after;
    assert (RANGE_UNIT + spec)[|RANGE_UNIT|..] == spec;
    forall i | 0 <= i < |spec|
      ensures IsDigit(spec[i]) || spec[i] == '-'
    {}
    SplitAtDash(before, after);
    assert spec[..|before|] == before && spec[|before| + 1..] == after;
  }

  /** The parser reads every printed range the way the RFC does, exactly unless a number overflows. */
  lemma {:induction false} ParsesPrintedRange(spec: RangeSpec, size: nat)
    requires 0 < size <= MAX_INT64
    ensures ParseSingleRange(Print(spec), size) == Selected(spec, size) <==> FitsInt64(spec, size)
    ensures !FitsInt64(spec, size) ==> ParseSingleRange(Print(spec), size) == None
  {
    match spec {
      case Span(first, last) => ParsesSpan(first, last, size);
      case From(first) => ParsesFrom(first, size);
      case Suffix(length) => ParsesSuffix(length, size);
    }
  }

  lemma ParsesSpan(first: nat, last: nat, size: nat)
    requires 0 < size <= MAX_INT64
    ensures ParseSingleRange(Print(Span(first, last)), size)
         == if last <= MAX_INT64 then Selected(Span(first, last), size) else None
  {
    DecimalTrims(first);
    DecimalTrims(last);
    ParsesNumbersAroundDash(Decimal(first), Decimal(last), size);
    DecimalParses(first);
    DecimalParses(last);
  }

  lemma ParsesFrom(first: nat, size: nat)
    requires 0 < size <= MAX_INT64
    ensures ParseSingleRange(Print(From(first)), size) == Selected(From(first), size)
  {
    DecimalTrims(first);
    ParsesNumbersAroundDash(Decimal(first), "", size);
    assert Decimal(first) + "-" + "" == Decimal(first) + "-";
    DecimalParses(first);
  }

  lemma ParsesSuffix(length: nat, size: nat)
    requires 0 < size <= MAX_INT64
    ensures ParseSingleRange(Print(Suffix(length)), size)
         == if length <= MAX_INT64 then Selected(Suffix(length), size) else None
  {
    DecimalTrims(length);
    ParsesNumbersAroundDash("", Decimal(length), size);
    assert "" + "-" + Decimal(length) == "-" + Decimal(length);
    DecimalParses(length);
  }

  // ── Serving ─────────────────────────────────────────────────────────────

  const STATUS_OK := 200
  const STATUS_PARTIAL := 206

  /** Legacy hands the file over as it is; Decrypted carries the headers that matter and the bytes sent. */
  datatype Response =
    | Legacy(body: Bytes)
    | Decrypted(status: nat, contentRange: Option<Range>, contentLength: nat, body: Bytes)

  /** The range that a request selects: None without a usable Range header. An empty header means no header. */
  function RequestedRange(header: string, size: nat): (r: Option<Range>)
    ensures r.Some? ==> 0 <= r.value.start <= r.value.end < size
  {
    if header != "" && size > 0 then ParseSingleRange(header, size) else None
  }

  /** The slice of a plaintext that a range stands for. */
  function Slice(plain: Bytes, range: Option<Range>): Bytes
    requires range.Some? ==> 0 <= range.value.start <= range.value.end < |plain|
  {
    match range
    case None => plain
    case Some(r) => plain[r.start..r.end + 1]
  }

  /** The response to a range of an encrypted file, stated on its whole decryption. */
  ghost function Answer(E: BlockCipher, file: Bytes, isHead: bool, range: Option<Range>): Response
    requires HasHeader(file)
    requires range.Some? ==> 0 <= range.value.start <= range.value.end < |file| - FILE_HEADER_SIZE
  {
    var slice := Slice(DecryptedFile(E, file), range);
    Decrypted(if range.Some? then STATUS_PARTIAL else STATUS_OK, range, |slice|, if isHead then [] else slice)
  }

  /** serveUploadedFile: legacy files go out as they are, encrypted ones by range. */
  method ServeUploadedFile(E: BlockCipher, file: Bytes, isHead: bool, header: string) returns (response: Response)
    requires |file| <= MAX_OFFSET
    ensures !HasHeader(file) ==> response == Legacy(file)
    ensures |file| < 20 || file[..4] != FILE_MAGIC ==> response == Legacy(file)
    ensures |file| >= 20 && file[..4] == FILE_MAGIC ==> response.Decrypted?
    ensures HasHeader(file) ==>
              response == Answer(E, file, isHead, RequestedRange(header, |file| - FILE_HEADER_SIZE))
    ensures forall iv, plain | file == EncryptedFile(E, iv, plain) :: Served(plain, isHead, header, response)
  {
    if !HasHeader(file) {
      return Legacy(file);
    }
    var plainSize := |file| - FILE_HEADER_SIZE;
    var range := None;
    if header != "" && plainSize > 0 {
      range := ParseSingleRange(header, plainSize);
    }
    response := SendRange(E, file, isHead, range);
    hide Answer, EncryptedFile, DecryptedFile;
    forall iv, plain | file == EncryptedFile(E, iv, plain)
      ensures Served(plain, isHead, header, response)
    {
      AnswersUpload(E, iv, plain, isHead, header);
    }
  }

  /** The second half of serveUploadedFile: only the bytes of the range are read and decrypted. */
  method SendRange(E: BlockCipher, file: Bytes, isHead: bool, range: Option<Range>) returns (response: Response)
    requires HasHeader(file) && |file| <= MAX_OFFSET
    requires range.Some? ==> 0 <= range.value.start <= range.value.end < |file| - FILE_HEADER_SIZE
    ensures response == Answer(E, file, isHead, range)
  {
    var start, end, status := 0, |file| - FILE_HEADER_SIZE - 1, STATUS_OK;
    if range.Some? {
      start, end, status := range.value.start, range.value.end, STATUS_PARTIAL;
    }
    var length := end - start + 1;
    assert Slice(DecryptedFile(E, file), range) == DecryptedFile(E, file)[start..start + length];
    if isHead {
      return Decrypted(status, range, length, []);
    }
    var body := DecryptSlice(E, file, start, length);
    return Decrypted(status, range, length, body);
  }

  /**
   * What a download of `plain` is to give: without a range, or with one that is ignored, all of it; with a range those
   * bytes; and a request for the head the same status, range and length.
   */
  predicate Served(plain: Bytes, isHead: bool, header: string, response: Response) {
    match RequestedRange(header, |plain|)
    case None => response == Decrypted(200, None, |plain|, if isHead then [] else plain)
    case Some(r) =>
      response == Decrypted(206, Some(r), r.end - r.start + 1, if isHead then [] else plain[r.start..r.end + 1])
  }

  lemma AnswersUpload(E: BlockCipher, iv: Block, plain: Bytes, isHead: bool, header: string)
    ensures var file := EncryptedFile(E, iv, plain);
            && |file| == FILE_HEADER_SIZE + |plain|
            && Served(plain, isHead, header, Answer(E, file, isHead, RequestedRange(header, |plain|)))
  {
    FileRoundTrip(E, iv, plain);
    hide RequestedRange, DecryptedFile;
  }

  /**
   * No header, another unit, more ranges than one, no dash, or an upload without a byte: there is no range to serve.
   */
  lemma IgnoredHeaders(header: string, size: nat)
    ensures header == "" || size == 0 ==> RequestedRange(header, size) == None
    ensures |header| < 6 || header[..6] != "bytes=" ==> RequestedRange(header, size) == None
    ensures ',' in header || '-' !in header ==> RequestedRange(header, size) == None
  {
    if RANGE_UNIT <= header {
      assert header == RANGE_UNIT + header[|RANGE_UNIT|..];
    }
  }

  /** Seek, then decrypt `length` bytes: a slice of the whole decryption without the rest of it. */
  method DecryptSlice(E: BlockCipher, file: Bytes, start: nat, length: nat) returns (body: Bytes)
    requires HasHeader(file) && FILE_HEADER_SIZE + start + length <= |file| <= MAX_OFFSET
    ensures body == DecryptedFile(E, file)[start..start + length]
  {
    var stream := NewCTRAt(E, FileIV(file), start);
    var stored := file[FILE_HEADER_SIZE + start..FILE_HEADER_SIZE + start + length];
    SameKeystream(E, stream.iv, stream.pos, FileIV(file), start, stored);
    body := CopyDecrypted(stream, stored);
    ghost var cipherText := file[FILE_HEADER_SIZE..];
    SliceOfTail(file, FILE_HEADER_SIZE, start, start + length);
    XorStreamSlice(E, FileIV(file), cipherText, start, start + length);
  }

  /** The copy loop: piece by piece, the stored bytes meet the key stream from where it stands. */
  method CopyDecrypted(stream: CtrStream, stored: Bytes) returns (body: Bytes)
    modifies stream
    ensures body == XorStream(stream.E, stream.iv, old(stream.pos), stored)
  {
    body := [];
    ghost var began := stream.pos;
    var done := 0;
    while done < |stored|
      invariant done <= |stored| && stream.pos == began + done
      invariant body == XorStream(stream.E, stream.iv, began, stored[..done])
    {
      var next := if |stored| - done < COPY_BUFFER then |stored| else done + COPY_BUFFER;
      var piece := stream.XORKeyStream(stored[done..next]);
      XorStreamExtends(stream.E, stream.iv, began, stored, done, next);
      body, done := body + piece, next;
    }
    assert stored[..done] == stored;
  }

  lemma SameKeystream(E: BlockCipher, iv: Block, pos: nat, iv': Block, pos': nat, data: Bytes)
    requires forall i: nat :: KeystreamAfter(E, iv, pos, i) == KeystreamAfter(E, iv', pos', i)
    ensures XorStream(E, iv, pos, data) == XorStream(E, iv', pos', data)
  {}

  /** Whatever was uploaded is what any range of it returns. */
  lemma {:induction false} ServesSliceOfUpload(E: BlockCipher, iv: Block, plain: Bytes, spec: RangeSpec)
    requires 0 < |plain| <= MAX_INT64 && FitsInt64(spec, |plain|) && Selected(spec, |plain|).Some?
    ensures RequestedRange(Print(spec), |plain|) == Selected(spec, |plain|)
    ensures var r := Selected(spec, |plain|).value;
            Answer(E, EncryptedFile(E, iv, plain), false, RequestedRange(Print(spec), |plain|))
            == Decrypted(STATUS_PARTIAL, Some(r), r.end - r.start + 1, plain[r.start..r.end + 1])
  {
    hide RequestedRange;
    RequestsPrintedRange(spec, |plain|);
    AnswersSlice(E, iv, plain, Selected(spec, |plain|).value);
  }

  lemma RequestsPrintedRange(spec: RangeSpec, size: nat)
    requires 0 < size <= MAX_INT64 && FitsInt64(spec, size) && Selected(spec, size).Some?
    ensures RequestedRange(Print(spec), size) == Selected(spec, size)
  {
    ParsesPrintedRange(spec, size);
  }

  lemma AnswersSlice(E: BlockCipher, iv: Block, plain: Bytes, r: Range)
    requires 0 <= r.start <= r.end < |plain|
    ensures Answer(E, EncryptedFile(E, iv, plain), false, Some(r))
         == Decrypted(STATUS_PARTIAL, Some(r), r.end - r.start + 1, plain[r.start..r.end + 1])
  {
    FileRoundTrip(E, iv, plain);
  }

  /** `cuts` divides [0, size) into consecutive non-empty ranges. */
  predicate Partition(cuts: seq<nat>, size: nat) {
    && |cuts| > 1 && cuts[0] == 0 && cuts[|cuts| - 1] == size
    && forall i, j :: 0 <= i < j < |cuts| ==> cuts[i] < cuts[j]
  }

  /** A client that fetches an upload range by range, in order, ends up with the upload. */
  lemma {:induction false} PartitionRebuildsUpload(E: BlockCipher, iv: Block, plain: Bytes, cuts: seq<nat>,
                                                   pieces: seq<Bytes>)
    requires 0 < |plain| <= MAX_INT64 && Partition(cuts, |plain|) && |pieces| == |cuts| - 1
    requires forall i :: 0 <= i < |pieces| ==> pieces[i] == FetchedPiece(E, iv, plain, cuts, i)
    ensures Flatten(pieces) == plain
  {
    forall i | 0 <= i < |pieces|
      ensures pieces[i] == Piece(plain, cuts, i)
    {
      FetchedPieceIsSlice(E, iv, plain, cuts, i);
    }
    SlicesJoin(plain, cuts, pieces, |pieces|);
    assert pieces[..|pieces|] == pieces && plain[..|plain|] == plain;
  }

  /** The body of the response to the request for piece `i` of a partition. */
  ghost function FetchedPiece(E: BlockCipher, iv: Block, plain: Bytes, cuts: seq<nat>, i: nat): Bytes
    requires Partition(cuts, |plain|) && i + 1 < |cuts|
  {
    var header := Print(Span(cuts[i], cuts[i + 1] - 1));
    Answer(E, EncryptedFile(E, iv, plain), false, RequestedRange(header, |plain|)).body
  }

  lemma {:induction false} FetchedPieceIsSlice(E: BlockCipher, iv: Block, plain: Bytes, cuts: seq<nat>, i: nat)
    requires 0 < |plain| <= MAX_INT64 && Partition(cuts, |plain|) && i + 1 < |cuts|
    ensures FetchedPiece(E, iv, plain, cuts, i) == Piece(plain, cuts, i)
  {
    CutsBounded(cuts, |plain|, i + 1);
    ServesSliceOfUpload(E, iv, plain, Span(cuts[i], cuts[i + 1] - 1));
  }

  function Piece(plain: Bytes, cuts: seq<nat>, i: nat): Bytes
    requires Partition(cuts, |plain|) && i + 1 < |cuts|
  {
    CutsBounded(cuts, |plain|, i + 1);
    plain[cuts[i]..cuts[i + 1]]
  }

  lemma {:induction false} SlicesJoin(plain: Bytes, cuts: seq<nat>, pieces: seq<Bytes>, k: nat)
    requires Partition(cuts, |plain|) && |cuts| == |pieces| + 1 && k <= |pieces|
    requires forall i :: 0 <= i < |pieces| ==> pieces[i] == Piece(plain, cuts, i)
    ensures cuts[k] <= |plain| && Flatten(pieces[..k]) == plain[..cuts[k]]
  {
    CutsBounded(cuts, |plain|, k);
    if k > 0 {
      SlicesJoin(plain, cuts, pieces, k - 1);
      assert pieces[..k][..k - 1] == pieces[..k - 1];
      assert pieces[k - 1] == Piece(plain, cuts, k - 1);
      assert plain[..cuts[k - 1]] + plain[cuts[k - 1]..cuts[k]] == plain[..cuts[k]];
    }
  }

  lemma CutsBounded(cuts: seq<nat>, size: nat, k: nat)
    requires Partition(cuts, size) && k < |cuts|
    ensures cuts[k] <= size
  {}
}
