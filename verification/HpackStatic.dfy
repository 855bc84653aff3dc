/** The static table of HPACK (appendix A of RFC 7541) and the run theorem for the tables of the source. */
module HpackStatic {
  import opened Wrappers
  import opened Bits
  import opened Huffman
  import opened HuffmanTable
  import opened HeaderTable
  import opened HeaderIndex
  import opened Hpack
  import opened HpackChunks
  import opened HpackLockstep
  import opened HpackCodec

  function Bytes(s: string): (r: Str) {
    seq(|s|, i requires 0 <= i < |s| => ByteOf(s[i] as nat))
  }

  function F(name: string, value: string): (f: Field) {
    Field(Bytes(name), Bytes(value))
  }

  function PseudoEntries(): (t: seq<Field>)
    ensures |t| == 14
  {
    [
      F(":authority", ""),
      F(":method", "GET"),
      F(":method", "POST"),
      F(":path", "/"),
      F(":path", "/index.html"),
      F(":scheme", "http"),
      F(":scheme", "https"),
      F(":status", "200"),
      F(":status", "204"),
      F(":status", "206"),
      F(":status", "304"),
      F(":status", "400"),
      F(":status", "404"),
      F(":status", "500")
    ]
  }

  function EntriesToH(): (t: seq<Field>)
    ensures |t| == 24
  {
    [
      F("accept-charset", ""),
      F("accept-encoding", "gzip, deflate"),
      F("accept-language", ""),
      F("accept-ranges", ""),
      F("accept", ""),
      F("access-control-allow-origin", ""),
      F("age", ""),
      F("allow", ""),
      F("authorization", ""),
      F("cache-control", ""),
      F("content-disposition", ""),
      F("content-encoding", ""),
      F("content-language", ""),
      F("content-length", ""),
      F("content-location", ""),
      F("content-range", ""),
      F("content-type", ""),
      F("cookie", ""),
      F("date", ""),
      F("etag", ""),
      F("expect", ""),
      F("expires", ""),
      F("from", ""),
      F("host", "")
    ]
  }

  function EntriesFromI(): (t: seq<Field>)
    ensures |t| == 23
  {
    [
      F("if-match", ""),
      F("if-modified-since", ""),
      F("if-none-match", ""),
      F("if-range", ""),
      F("if-unmodified-since", ""),
      F("last-modified", ""),
      F("link", ""),
      F("location", ""),
      F("max-forwards", ""),
      F("proxy-authenticate", ""),
      F("proxy-authorization", ""),
      F("range", ""),
      F("referer", ""),
      F("refresh", ""),
      F("retry-after", ""),
      F("server", ""),
      F("set-cookie", ""),
      F("strict-transport-security", ""),
      F("transfer-encoding", ""),
      F("user-agent", ""),
      F("vary", ""),
      F("via", ""),
      F("www-authenticate", "")
    ]
  }

  function StaticTable(): (t: seq<Field>)
    ensures |t| == 61
  {
    PseudoEntries() + EntriesToH() + EntriesFromI()
  }

  lemma {:induction false} CodeBitsBound(codes: seq<Code>, s: Str)
    requires WellSized(codes)
    ensures |CodeBits(codes, s)| <= 30 * |s|
  {
    if s != [] { CodeBitsBound(codes, s[..|s| - 1]); }
  }

  lemma {:induction false} EncodedBound(codes: seq<Code>, s: Str)
    requires WellSized(codes)
    ensures |Encoded(codes, s)| <= 4 * |s| + 1
  {
    CodeBitsBound(codes, s);
    var b := CodeBits(codes, s);
    BitsOfPack(b + Repeat(true, Padding(|b|)));
  }

  /** A good Huffman code makes a good book. */
  lemma {:induction false} GoodCodesGoodBook(codes: seq<Code>, statics: seq<Field>)
    requires GoodCodes(codes) && |statics| < TWO32
    ensures GoodBook(BookOf(codes, statics))
  {
    var cb := BookOf(codes, statics);
    forall s ensures cb.huffDecode(cb.huffEncode(s)) == s && |cb.huffEncode(s)| <= 4 * |s| + 1 {
      RoundTrip(codes, s);
      EncodedBound(codes, s);
    }
  }

  ghost function StandardBook(): (cb: Codebook) {
    BookOf(HuffmanCodes(), StaticTable())
  }

  lemma {:induction false} StandardBookIsGood()
    ensures GoodBook(StandardBook())
  {
    TableIsGood();
    GoodCodesGoodBook(HuffmanCodes(), StaticTable());
  }

  /** With the Huffman code and the static table of the source, encoder and decoder agree over every run. */
  lemma {:induction false} StandardLockstep(h: Handler, max: nat, run: seq<Event>)
    requires max < TWO31
    requires IsRun(StandardBook(), h, NewEncoder(max), NewDecoder(max), run)
    ensures AllBlocksAgree(StandardBook(), h, NewEncoder(max), NewDecoder(max), run)
  {
    StandardBookIsGood();
    Lockstep(StandardBook(), h, max, run);
  }
}
