/**
 URL paths built from the parts of a request (opensearchpy/client/utils.py): UTF-8, percent
 encoding (RFC 3986, section 2.1), and joining with slashes.
 */
module Paths {
  import opened Prelude
  import opened Text
  import GrpcTransport

  type Byte = b: nat | b < 256

  // ---- UTF-8 ----

  function EncodeChar(c: char): seq<Byte> {
    var n := c as int;
    var h := n / 64;
    var g := h / 64;
    if n < 0x80 then [n]
    else if n < 0x800 then [0xC0 + h, 0x80 + n % 64]
    else if n < 0x10000 then [0xE0 + g, 0x80 + h % 64, 0x80 + n % 64]
    else [0xF0 + g / 64, 0x80 + g % 64, 0x80 + h % 64, 0x80 + n % 64]
  }

  function Utf8(s: string): seq<Byte> {
    if s == "" then [] else EncodeChar(s[0]) + Utf8(s[1..])
  }

  /** One more byte of a code point: its six low bits follow. */
  function Extend(high: int, b: int): int {
    high * 64 + (b - 0x80)
  }

  /** The code point that starts a byte sequence, and its length; (0, 1) when too short. */
  function FirstPoint(b: seq<Byte>): (int, nat)
    requires b != []
  {
    var lead: int := b[0];
    if lead < 0x80 then (lead, 1)
    else if lead < 0xE0 && |b| >= 2 then (Extend(lead - 0xC0, b[1]), 2)
    else if lead < 0xF0 && |b| >= 3 then (Extend(Extend(lead - 0xE0, b[1]), b[2]), 3)
    else if |b| >= 4 then (Extend(Extend(Extend(lead - 0xF0, b[1]), b[2]), b[3]), 4)
    else (0, 1)
  }

  lemma ExtendBack(n: nat)
    ensures Extend(n / 64, 0x80 + n % 64) == n
  {}

  lemma FirstPointOfChar(c: char, tail: seq<Byte>)
    ensures FirstPoint(EncodeChar(c) + tail) == (c as int, |EncodeChar(c)|)
  {
    var n := c as int;
    ExtendBack(n);
    ExtendBack(n / 64);
    ExtendBack(n / 64 / 64);
    var b := EncodeChar(c);
    assert forall i :: 0 <= i < |b| ==> (b + tail)[i] == b[i];
  }

  /** Different strings have different encodings. */
  lemma {:induction false} Utf8Injective(s: string, t: string)
    requires Utf8(s) == Utf8(t)
    ensures s == t
  {
    if s != "" && t != "" {
      FirstPointOfChar(s[0], Utf8(s[1..]));
      FirstPointOfChar(t[0], Utf8(t[1..]));
      var n := |EncodeChar(s[0])|;
      assert Utf8(s)[n..] == Utf8(s[1..]);
      assert Utf8(t)[n..] == Utf8(t[1..]);
      Utf8Injective(s[1..], t[1..]);
      assert s == [s[0]] + s[1..] && t == [t[0]] + t[1..];
    }
  }

  lemma Utf8Empty(s: string)
    ensures Utf8(s) == [] <==> s == ""
  {}

  // ---- percent encoding ----

  /** Bytes that quote leaves as they are: the unreserved ones, the comma and the star. */
  predicate Safe(b: Byte) {
    ('A' as int <= b <= 'Z' as int) || ('a' as int <= b <= 'z' as int) || ('0' as int <= b <= '9' as int)
    || (b as char in "_.-~,*")
  }

  function HexDigit(n: nat): (c: char)
    requires n < 16
    ensures c != '/' && c != '%'
  {
    if n < 10 then '0' + n as char else 'A' + (n - 10) as char
  }

  function HexValue(c: char): nat {
    if '0' <= c <= '9' then (c - '0') as int else if 'A' <= c <= 'F' then (c - 'A') as int + 10 else 0
  }

  function QuoteByte(b: Byte): string {
    if Safe(b) then [b as char] else ['%', HexDigit(b / 16), HexDigit(b % 16)]
  }

  function Quote(b: seq<Byte>): string {
    if b == [] then "" else QuoteByte(b[0]) + Quote(b[1..])
  }

  function Unquote(s: string): seq<Byte> {
    if s == "" then []
    else if s[0] == '%' && |s| >= 3 then [HexValue(s[1]) * 16 % 256 + HexValue(s[2]) % 16] + Unquote(s[3..])
    else [s[0] as int % 256] + Unquote(s[1..])
  }

  lemma HexBack(b: Byte)
    ensures HexValue(HexDigit(b / 16)) * 16 % 256 + HexValue(HexDigit(b % 16)) % 16 == b
  {
    assert HexValue(HexDigit(b / 16)) == b / 16;
    assert HexValue(HexDigit(b % 16)) == b % 16;
  }

  lemma UnquoteByte(b: Byte, tail: string)
    ensures Unquote(QuoteByte(b) + tail) == [b] + Unquote(tail)
    ensures '/' !in QuoteByte(b)
  {
    var q := QuoteByte(b);
    if Safe(b) {
      assert b as char != '%' && b as char != '/';
      assert (q + tail)[1..] == tail;
    } else {
      HexBack(b);
      assert (q + tail)[3..] == tail;
    }
  }

  lemma {:induction false} UnquoteQuote(b: seq<Byte>)
    ensures Unquote(Quote(b)) == b
    ensures '/' !in Quote(b)
    ensures Quote(b) == "" <==> b == []
  {
    if b != [] {
      UnquoteQuote(b[1..]);
      UnquoteByte(b[0], Quote(b[1..]));
      assert b == [b[0]] + b[1..];
    }
  }

  // ---- paths ----

  datatype Part =
    | Absent                        // None
    | Word(text: string)
    | Raw(bytes: seq<Byte>)
    | Words(items: seq<string>)     // a list or tuple
    | Flag(on: bool)
    | Shown(text: string)           // anything else, with its text

  /** SKIP_IN_PATH */
  predicate Skipped(p: Part) {
    p in {Absent, Word(""), Raw([]), Words([])}
  }

  function Escape(p: Part): seq<Byte>
    requires p != Absent
  {
    match p
    case Word(text) => Utf8(text)
    case Raw(bytes) => bytes
    case Words(items) => Utf8(Join(items, ','))
    case Flag(on) => Utf8(if on then "true" else "false")
    case Shown(text) => Utf8(text)
  }

  /** The bytes of the parts that are kept, in order. */
  function Kept(parts: seq<Part>): seq<seq<Byte>> {
    if parts == [] then []
    else if Skipped(parts[0]) then Kept(parts[1..])
    else [Escape(parts[0])] + Kept(parts[1..])
  }

  function QuoteAll(segments: seq<seq<Byte>>): (r: seq<string>)
    ensures |r| == |segments|
    ensures forall i :: 0 <= i < |r| ==> r[i] == Quote(segments[i])
  {
    if segments == [] then [] else [Quote(segments[0])] + QuoteAll(segments[1..])
  }

  function UnquoteAll(segments: seq<string>): seq<seq<Byte>> {
    if segments == [] then [] else [Unquote(segments[0])] + UnquoteAll(segments[1..])
  }

  function MakePath(parts: seq<Part>): string {
    "/" + Join(QuoteAll(Kept(parts)), '/')
  }

  lemma {:induction false} UnquoteAllQuoteAll(segments: seq<seq<Byte>>)
    ensures UnquoteAll(QuoteAll(segments)) == segments
    ensures forall s :: s in QuoteAll(segments) ==> '/' !in s
  {
    if segments != [] {
      UnquoteQuote(segments[0]);
      UnquoteAllQuoteAll(segments[1..]);
      assert QuoteAll(segments)[1..] == QuoteAll(segments[1..]);
    }
  }

  /** Splitting a path after its leading slash and decoding the segments gives back the
      kept parts, in order; only the path without parts, "/", reads as one empty part. */
  lemma PathDecodes(parts: seq<Part>)
    ensures MakePath(parts)[0] == '/'
    ensures UnquoteAll(Split(MakePath(parts)[1..], '/')) == if Kept(parts) == [] then [[]] else Kept(parts)
  {
    var quoted := QuoteAll(Kept(parts));
    UnquoteAllQuoteAll(Kept(parts));
    assert MakePath(parts)[1..] == Join(quoted, '/');
    if Kept(parts) != [] {
      SplitJoin(quoted, '/');
    } else {
      assert Split("", '/') == [""];
      assert UnquoteAll([""]) == [[]] + UnquoteAll([]);
    }
  }

  /** Two part lists give the same path exactly when their kept parts are the same bytes;
      no part and one part of zero bytes, as the list with one empty string gives, are the
      only ones confused. */
  lemma PathInjective(a: seq<Part>, b: seq<Part>)
    ensures MakePath(a) == MakePath(b) <==>
            Kept(a) == Kept(b) || (Kept(a) in {[], [[]]} && Kept(b) in {[], [[]]})
  {
    PathDecodes(a);
    PathDecodes(b);
    if Kept(a) in {[], [[]]} && Kept(b) in {[], [[]]} {
      assert QuoteAll([[]]) == [""];
      assert QuoteAll([]) == [];
    }
  }

  /** The two lists that are confused: no part at all, and one part of zero bytes. */
  lemma NoPartLooksEmpty()
    ensures MakePath([Words([""])]) == MakePath([]) == "/"
    ensures Kept([Words([""])]) == [[]] && Kept([]) == []
  {
    assert Join([""], ',') == "" && Utf8("") == [];
    assert [Words([""])][1..] == [];
    assert !Skipped(Words([""])) by {
      assert |[""]| == 1;
    }
  }

  lemma {:induction false} KeptWords(words: seq<string>, parts: seq<Part>)
    requires |parts| == |words| && forall i :: 0 <= i < |words| ==> words[i] != "" && parts[i] == Word(words[i])
    ensures |Kept(parts)| == |words|
    ensures forall i :: 0 <= i < |words| ==> Kept(parts)[i] == Utf8(words[i])
  {
    if words != [] {
      KeptWords(words[1..], parts[1..]);
    }
  }

  /** Lists of non-empty strings are told apart by their paths. */
  lemma WordsInjective(a: seq<string>, pa: seq<Part>, b: seq<string>, pb: seq<Part>)
    requires |pa| == |a| && forall i :: 0 <= i < |a| ==> a[i] != "" && pa[i] == Word(a[i])
    requires |pb| == |b| && forall i :: 0 <= i < |b| ==> b[i] != "" && pb[i] == Word(b[i])
    requires MakePath(pa) == MakePath(pb)
    ensures a == b
  {
    KeptWords(a, pa);
    KeptWords(b, pb);
    PathInjective(pa, pb);
    if Kept(pa) == [[]] {
      Utf8Empty(a[0]);
      assert false;
    }
    if Kept(pb) == [[]] {
      Utf8Empty(b[0]);
      assert false;
    }
    forall i | 0 <= i < |a|
      ensures a[i] == b[i]
    {
      Utf8Injective(a[i], b[i]);
    }
  }

  /** Which parts are dropped, and what a list becomes. */
  lemma PartsKept(part: Part, items: seq<string>)
    ensures Kept([part]) == [] <==> part == Absent || part == Word("") || part == Raw([]) || part == Words([])
    ensures items != [] ==> Kept([Words(items)]) == [Utf8(Join(items, ','))]
  {
    hide Utf8, Join;
    assert [part][1..] == [] && [Words(items)][1..] == [];
  }

  lemma FlagShown(on: bool)
    ensures MakePath([Flag(on)]) == if on then "/true" else "/false"
  {
    hide Utf8, Quote;
    var text := if on then "true" else "false";
    PlainWord(text);
    assert [Flag(on)][1..] == [];
    assert Kept([Flag(on)]) == [Utf8(text)];
    assert QuoteAll([Utf8(text)]) == [text];
  }

  lemma PlainWord(text: string)
    requires text == "true" || text == "false"
    ensures Quote(Utf8(text)) == text
  {
    QuoteIdentity(text);
  }

  // ---- the URL of a bulk request ----

  /** The character is one ASCII character that quote leaves alone. */
  predicate Plain(c: char) {
    c as int < 0x80 && Safe(c as int)
  }

  /** The characters that stay as they are: the unreserved ones of RFC 3986, section 2.3, and two
      more. */
  lemma PlainExactly(c: char)
    ensures Plain(c) <==>
            || 'A' <= c <= 'Z' || 'a' <= c <= 'z' || '0' <= c <= '9'
            || c == '-' || c == '.' || c == '_' || c == '~' || c == ',' || c == '*'
  {}

  lemma {:induction false} QuoteAppend(a: seq<Byte>, b: seq<Byte>)
    ensures Quote(a + b) == Quote(a) + Quote(b)
  {
    hide QuoteByte;
    if a == [] {
      assert a + b == b;
    } else {
      QuoteAppend(a[1..], b);
      assert (a + b)[1..] == a[1..] + b;
    }
  }

  lemma QuotedCharLength(c: char)
    ensures Quote(EncodeChar(c)) == [c] <==> Plain(c)
    ensures |Quote(EncodeChar(c))| >= 1
    ensures !Plain(c) ==> |Quote(EncodeChar(c))| > 1
  {
    var b := EncodeChar(c);
    assert Quote(b) == QuoteByte(b[0]) + Quote(b[1..]);
    if |b| == 1 {
      assert b[1..] == [];
    } else {
      assert !Safe(b[0]);
    }
  }

  /** Quoting changes a text exactly when some character is not plain. */
  lemma {:induction false} QuoteIdentity(s: string)
    ensures Quote(Utf8(s)) == s <==> forall c :: c in s ==> Plain(c)
    ensures |Quote(Utf8(s))| >= |s|
    ensures (exists c :: c in s && !Plain(c)) ==> |Quote(Utf8(s))| > |s|
  {
    if s != "" {
      QuoteIdentity(s[1..]);
      QuoteAppend(EncodeChar(s[0]), Utf8(s[1..]));
      QuotedCharLength(s[0]);
      assert s == [s[0]] + s[1..];
      if Plain(s[0]) {
        assert Quote(Utf8(s)) == [s[0]] + Quote(Utf8(s[1..]));
        assert Quote(Utf8(s))[1..] == Quote(Utf8(s[1..]));
      }
    }
  }

  lemma KeptBulk()
    ensures Kept([Word("_bulk")]) == [Utf8("_bulk")]
  {
    var word := Word("_bulk");
    assert |"_bulk"| != 0;
    assert !Skipped(word);
    assert [word][1..] == [];
    assert Kept([word]) == [Escape(word)] + Kept([]);
  }

  lemma BulkUrl(index: string)
    requires index != ""
    ensures MakePath([Word(index), Word("_bulk")]) == "/" + Quote(Utf8(index)) + "/_bulk"
  {
    hide Quote, Utf8, Safe;
    var parts := [Word(index), Word("_bulk")];
    assert parts[1..] == [Word("_bulk")];
    KeptBulk();
    assert Kept(parts) == [Utf8(index)] + Kept([Word("_bulk")]);
    PlainBulk();
    var quoted := QuoteAll(Kept(parts));
    assert quoted == [Quote(Utf8(index)), "_bulk"];
    assert Join(quoted, '/') == quoted[0] + ['/'] + Join(quoted[1..], '/');
  }

  lemma PlainBulk()
    ensures Quote(Utf8("_bulk")) == "_bulk"
  {
    QuoteIdentity("_bulk");
  }

  /** The bulk URL of an index goes to gRPC, and the index extracted from it is the quoted
      one: the index itself exactly when quoting leaves all its characters alone. */
  lemma BulkIndex(index: string)
    requires index != ""
    ensures var url := MakePath([Word(index), Word("_bulk")]);
            && GrpcTransport.TakesGrpc("POST", url)
            && GrpcTransport.ExtractIndex(url, "_bulk") == Some(Quote(Utf8(index)))
            && (GrpcTransport.ExtractIndex(url, "_bulk") == Some(index) <==> forall c :: c in index ==> Plain(c))
  {
    hide Quote, Utf8, Safe, MakePath, GrpcTransport.ExtractIndex;
    var q := Quote(Utf8(index));
    var url := "/" + q + "/_bulk";
    BulkUrl(index);
    UnquoteQuote(Utf8(index));
    QuoteIdentity(index);
    assert url + "" == url;
    GrpcTransport.ExtractsIndex(q, "");
    assert url[|url| - 6..] == "/_bulk" && url[1..|url| - 6] == q;
  }

  /** Without an index, or with an empty one, the bulk URL goes to gRPC with none. */
  lemma BulkNoIndex(part: Part)
    requires Skipped(part)
    ensures var url := MakePath([part, Word("_bulk")]);
            GrpcTransport.TakesGrpc("POST", url) && GrpcTransport.ExtractIndex(url, "_bulk") == None
  {
    var parts := [part, Word("_bulk")];
    assert parts[1..] == [Word("_bulk")];
    KeptBulk();
    assert Kept(parts) == [Utf8("_bulk")];
    QuoteIdentity("_bulk");
    var quoted := QuoteAll(Kept(parts));
    assert quoted == ["_bulk"];
    assert MakePath(parts) == "/_bulk";
    GrpcTransport.RoutedIndex("POST", "/_bulk");
  }
}
