/**
 * The HTTP helpers of src/http.c: a loose request-line parser (method, target
 * and version, in the shape of section 3 of RFC 9112), a decoder for %20 and
 * '+', the MIME-by-extension and status-phrase tables, the response-header
 * builder (status line as in section 4 of RFC 9112) and the traversal check.
 */
module Http {
  import opened Wrappers
  import opened Text

  // ---------------------------------------------------------------------------
  // Request line
  // ---------------------------------------------------------------------------

  /** http_method_t */
  datatype Method = Get | Head | Unsupported

  /** http_version_t */
  datatype Version = Http10 | Http11 | UnknownVersion

  /** The fields of http_request_t this model keeps. */
  datatype Request = Request(httpMethod: Method, path: string, httpVersion: Version)

  function ClassifyMethod(token: string): (m: Method)
    ensures m == Get <==> token == "GET"
    ensures m == Head <==> token == "HEAD"
  {
    if token == "GET" then Get else if token == "HEAD" then Head else Unsupported
  }

  function ClassifyVersion(token: string): (v: Version)
    ensures v == Http10 <==> token == "HTTP/1.0"
    ensures v == Http11 <==> token == "HTTP/1.1"
  {
    if token == "HTTP/1.0" then Http10 else if token == "HTTP/1.1" then Http11 else UnknownVersion
  }

  function IsLineBreak(c: char): bool { c == '\r' || c == '\n' }
  function NotLineBreak(c: char): bool { !IsLineBreak(c) }

  /** strtok(copy, "\r\n"): the first non-empty run of characters other than CR and LF. */
  function FirstLine(s: string): (r: Option<string>)
    ensures r.None? <==> forall i :: 0 <= i < |s| ==> IsLineBreak(s[i])
    ensures r.Some? ==> r.value != [] && forall i :: 0 <= i < |r.value| ==> !IsLineBreak(r.value[i])
  {
    var k := PrefixWhile(s, IsLineBreak);
    if k == |s| then None
    else
      var rest := s[k..];
      var n := PrefixWhile(rest, NotLineBreak);
      assert rest[0] == s[k];
      Some(rest[..n])
  }

  predicate IsToken(t: string) {
    t != [] && forall i :: 0 <= i < |t| ==> !IsSpace(t[i])
  }

  /** The whitespace-separated tokens of s, as successive %s conversions of sscanf read them. */
  function Tokens(s: string): (ts: seq<string>)
    ensures forall j :: 0 <= j < |ts| ==> IsToken(ts[j])
    decreases |s|
  {
    var t := s[PrefixWhile(s, IsSpace)..];
    if t == [] then []
    else
      var n := PrefixWhile(t, NotSpace);
      assert t[0] == s[PrefixWhile(s, IsSpace)];
      [t[..n]] + Tokens(t[n..])
  }

  /**
   * http_parse_request. None is the -1 return: a NULL buffer, a buffer of
   * nothing but line breaks, or a first line with fewer than three tokens.
   * Every other request parses, whatever the method and version say.
   */
  function ParseRequest(buffer: Option<string>): (r: Option<Request>)
    ensures buffer.None? ==> r.None?
    ensures buffer.Some? && FirstLine(buffer.value).None? ==> r.None?
    ensures r.Some? <==> buffer.Some? && FirstLine(buffer.value).Some? && |Tokens(FirstLine(buffer.value).value)| >= 3
  {
    if buffer.None? then None
    else match FirstLine(buffer.value)
      case None => None
      case Some(line) =>
        var ts := Tokens(line);
        if |ts| < 3 then None
        else Some(Request(ClassifyMethod(ts[0]), UrlDecode(ts[1]), ClassifyVersion(ts[2])))
  }

  /**
   * FirstLine is the first maximal run of non-break characters: whatever
   * leading breaks come before it, it ends at the next break or at the end.
   */
  lemma FirstLineIsFirstRun(s: string, k: nat, n: nat)
    requires 0 < n && k + n <= |s|
    requires forall i :: 0 <= i < k ==> IsLineBreak(s[i])
    requires forall i :: k <= i < k + n ==> !IsLineBreak(s[i])
    requires k + n == |s| || IsLineBreak(s[k + n])
    ensures FirstLine(s) == Some(s[k..k + n])
  {
    assert s == s[..k] + s[k..];
    PrefixWhileStopsAt(s[..k], s[k..], IsLineBreak);
    var rest := s[k..];
    assert rest == rest[..n] + rest[n..];
    PrefixWhileStopsAt(rest[..n], rest[n..], NotLineBreak);
    assert rest[..n] == s[k..k + n];
  }

  /** Nothing but whitespace holds no token. */
  lemma TokensOfSpaces(w: string)
    requires AllSpace(w)
    ensures Tokens(w) == []
  {
    PrefixWhileAll(w, IsSpace);
    assert w[|w|..] == [];
  }

  /**
   * Whitespace, a token, then whitespace or the end: the token comes first and
   * the rest is split the same way. With TokensOfSpaces this fixes Tokens on
   * every input.
   */
  lemma TokensSplit(w: string, t: string, x: string)
    requires AllSpace(w) && IsToken(t)
    requires x == [] || IsSpace(x[0])
    ensures Tokens(w + t + x) == [t] + Tokens(x)
  {
    var s := w + t + x;
    assert s == w + (t + x);
    assert (t + x)[0] == t[0];
    PrefixWhileStopsAt(w, t + x, IsSpace);
    assert s[|w|..] == t + x;
    PrefixWhileStopsAt(t, x, NotSpace);
    assert (t + x)[..|t|] == t;
    assert (t + x)[|t|..] == x;
  }

  lemma TokensOfRequestLine(m: string, p: string, v: string)
    requires IsToken(m) && IsToken(p) && IsToken(v)
    ensures Tokens(m + " " + p + " " + v) == [m, p, v]
  {
    RequestLineShape(m, p, v);
    TokensAfterMethod(p, v);
    TokensSplit([], m, " " + p + (" " + v));
  }

  lemma RequestLineShape(m: string, p: string, v: string)
    ensures m + " " + p + " " + v == [] + m + (" " + p + (" " + v))
  {
  }

  /** The target and the version after the method's space. */
  lemma TokensAfterMethod(p: string, v: string)
    requires IsToken(p) && IsToken(v)
    ensures Tokens(" " + p + (" " + v)) == [p, v]
  {
    TokensOfVersion(v);
    TokensSplit(" ", p, " " + v);
  }

  lemma TokensOfVersion(v: string)
    requires IsToken(v)
    ensures Tokens(" " + v) == [v]
  {
    assert " " + v + [] == " " + v;
    TokensOfSpaces([]);
    TokensSplit(" ", v, []);
  }

  /** A request line built from three tokens holds no line break. */
  lemma RequestLineHasNoBreak(m: string, p: string, v: string)
    requires IsToken(m) && IsToken(p) && IsToken(v)
    ensures forall i :: 0 <= i < |m + " " + p + " " + v| ==> !IsLineBreak((m + " " + p + " " + v)[i])
  {
    var line := m + " " + p + " " + v;
    forall i | 0 <= i < |line| ensures !IsLineBreak(line[i]) {
      if i < |m| { assert line[i] == m[i]; }
      else if i == |m| { assert line[i] == ' '; }
      else if i < |m| + 1 + |p| { assert line[i] == p[i - |m| - 1]; }
      else if i == |m| + 1 + |p| { assert line[i] == ' '; }
      else { assert line[i] == v[i - |m| - |p| - 2]; }
    }
  }

  /** strtok returns a non-empty first line that is followed by CR LF. */
  lemma FirstLineOfBuffer(line: string, rest: string)
    requires line != [] && forall i :: 0 <= i < |line| ==> !IsLineBreak(line[i])
    ensures FirstLine(line + "\r\n" + rest) == Some(line)
  {
    var s := line + "\r\n" + rest;
    assert s == line + ("\r\n" + rest);
    assert s[0] == line[0];
    assert PrefixWhile(s, IsLineBreak) == 0;
    assert s[0..] == s;
    PrefixWhileStopsAt(line, "\r\n" + rest, NotLineBreak);
    assert s[..|line|] == line;
  }

  /**
   * A request whose first line is METHOD SP TARGET SP VERSION CRLF parses into
   * the classified method, the decoded target and the classified version,
   * whatever follows the line.
   */
  lemma ParseRequestLine(m: string, p: string, v: string, rest: string)
    requires IsToken(m) && IsToken(p) && IsToken(v)
    ensures ParseRequest(Some(m + " " + p + " " + v + "\r\n" + rest))
         == Some(Request(ClassifyMethod(m), UrlDecode(p), ClassifyVersion(v)))
  {
    var line := m + " " + p + " " + v;
    RequestLineHasNoBreak(m, p, v);
    FirstLineOfBuffer(line, rest);
    TokensOfRequestLine(m, p, v);
  }

  // ---------------------------------------------------------------------------
  // Percent-decoding of %20 and '+'
  // ---------------------------------------------------------------------------

  /** What http_url_decode writes for src: %20 and '+' become a space, everything else is copied. */
  function UrlDecode(s: string): string
    decreases |s|
  {
    if s == [] then []
    else if s[0] == '%' && |s| >= 3 && s[1] == '2' && s[2] == '0' then " " + UrlDecode(s[3..])
    else if s[0] == '+' then " " + UrlDecode(s[1..])
    else [s[0]] + UrlDecode(s[1..])
  }

  /** The output never outgrows the input, so decoding in place is safe. */
  lemma {:induction false} UrlDecodeShrinks(s: string)
    ensures |UrlDecode(s)| <= |s|
    decreases |s|
  {
    if s != [] {
      if s[0] == '%' && |s| >= 3 && s[1] == '2' && s[2] == '0' {
        UrlDecodeShrinks(s[3..]);
      } else {
        UrlDecodeShrinks(s[1..]);
      }
    }
  }

  /** Strings with neither '%' nor '+' come back unchanged. */
  lemma {:induction false} UrlDecodeIdentity(s: string)
    requires '%' !in s && '+' !in s
    ensures UrlDecode(s) == s
    decreases |s|
  {
    if s != [] {
      assert s[0] in s;
      assert forall c :: c in s[1..] ==> c in s;
      UrlDecodeIdentity(s[1..]);
    }
  }

  /** A decoded string holds no '+'. */
  lemma {:induction false} UrlDecodeNoPlus(s: string)
    ensures '+' !in UrlDecode(s)
    decreases |s|
  {
    if s != [] {
      if s[0] == '%' && |s| >= 3 && s[1] == '2' && s[2] == '0' {
        UrlDecodeNoPlus(s[3..]);
      } else {
        UrlDecodeNoPlus(s[1..]);
      }
    }
  }

  /** %20 becomes one space. */
  lemma UrlDecodeSpace(b: string)
    ensures UrlDecode("%20" + b) == " " + UrlDecode(b)
  {
    assert ("%20" + b)[3..] == b;
  }

  /** The example of src/main.c. */
  lemma UrlDecodeExample()
    ensures UrlDecode("/path%20with%20spaces.html") == "/path with spaces.html"
  {
    var a, b, c := "/path", "with", "spaces.html";
    assert '%' !in a && '+' !in a;
    assert '%' !in b && '+' !in b;
    assert '%' !in c && '+' !in c;
    UrlDecodeIdentity(c);
    UrlDecodeSpace(c);
    DecodePlainPrefix(b, "%20" + c);
    UrlDecodeSpace(b + ("%20" + c));
    DecodePlainPrefix(a, "%20" + (b + ("%20" + c)));
    ExamplePathPieces();
  }

  lemma ExamplePathPieces()
    ensures "/path" + ("%20" + ("with" + ("%20" + "spaces.html"))) == "/path%20with%20spaces.html"
    ensures "/path" + (" " + ("with" + (" " + "spaces.html"))) == "/path with spaces.html"
  {
  }

  lemma {:induction false} DecodePlainPrefix(a: string, b: string)
    requires '%' !in a && '+' !in a
    ensures UrlDecode(a + b) == a + UrlDecode(b)
    decreases |a|
  {
    if a != [] {
      assert a[0] in a;
      assert forall c :: c in a[1..] ==> c in a;
      assert (a + b)[1..] == a[1..] + b;
      DecodePlainPrefix(a[1..], b);
      assert a == [a[0]] + a[1..];
    } else {
      assert a + b == b;
    }
  }

  /** One step of the decoding loop: the character c written for the next n input characters. */
  lemma DecodeStep(src: string, read: nat, out: string, n: nat, c: char)
    requires read + n <= |src| && 1 <= n
    requires out + UrlDecode(src[read..]) == UrlDecode(src)
    requires UrlDecode(src[read..]) == [c] + UrlDecode(src[read..][n..])
    ensures (out + [c]) + UrlDecode(src[read + n..]) == UrlDecode(src)
  {
    assert src[read..][n..] == src[read + n..];
  }

  /**
   * http_url_decode(dst, src) with dst == src, as http_parse_request calls it:
   * the string a[..len] is decoded in place and the new length returned. The
   * write position never passes the read position, so every character still to
   * be read is the original one.
   */
  method UrlDecodeInPlace(a: array<char>, len: nat) returns (newLen: nat)
    requires len <= a.Length
    modifies a
    ensures newLen <= len
    ensures a[..newLen] == UrlDecode(old(a[..len]))
    ensures forall k :: len <= k < a.Length ==> a[k] == old(a[k])
  {
    ghost var src := a[..len];
    ghost var out: string := [];
    var read, write := 0, 0;
    while read < len
      invariant write <= read <= len && |out| == write
      invariant forall k :: read <= k < len ==> a[k] == src[k]
      invariant forall k :: len <= k < a.Length ==> a[k] == old(a[k])
      invariant forall k :: 0 <= k < write ==> a[k] == out[k]
      invariant out + UrlDecode(src[read..]) == UrlDecode(src)
      decreases len - read
    {
      // The character to write and the number of input characters it stands for.
      var c: char, n: nat;
      if a[read] == '%' && read + 2 < len && a[read + 1] == '2' && a[read + 2] == '0' {
        c, n := ' ', 3;
      } else if a[read] == '+' {
        c, n := ' ', 1;
      } else {
        c, n := a[read], 1;
      }
      DecodeStep(src, read, out, n, c);
      a[write] := c;
      out := out + [c];
      write, read := write + 1, read + n;
    }
    assert src[len..] == [];
    assert a[..write] == out;
    newLen := write;
  }

  // ---------------------------------------------------------------------------
  // MIME types
  // ---------------------------------------------------------------------------

  /** strrchr: the last position of c in s. */
  function LastIndexOf(s: string, c: char): (r: Option<nat>)
    ensures r.None? <==> c !in s
    ensures r.Some? ==> r.value < |s| && s[r.value] == c && c !in s[r.value + 1..]
    decreases |s|
  {
    if s == [] then None
    else if s[|s| - 1] == c then
      assert s[|s|..] == [];
      Some(|s| - 1)
    else
      var r := LastIndexOf(s[..|s| - 1], c);
      assert forall x :: x in s ==> x in s[..|s| - 1] || x == s[|s| - 1] by {
        forall x | x in s ensures x in s[..|s| - 1] || x == s[|s| - 1] {
          var i :| 0 <= i < |s| && s[i] == x;
          if i < |s| - 1 { assert s[..|s| - 1][i] == x; }
        }
      }
      if r.Some? then
        assert s[r.value + 1..] == s[..|s| - 1][r.value + 1..] + [s[|s| - 1]];
        r
      else r
  }

  /** The extensions the table knows. */
  const KnownExtensions: set<string> :=
    {".html", ".htm", ".css", ".js", ".png", ".jpg", ".jpeg", ".gif", ".svg", ".json"}

  /** The table of http_get_mime_type, keyed case-sensitively on the extension including its dot. */
  function MimeOf(ext: string): (r: string)
    ensures r == "text/plain" <==> ext !in KnownExtensions
  {
    if ext == ".html" || ext == ".htm" then "text/html"
    else if ext == ".css" then "text/css"
    else if ext == ".js" then "application/javascript"
    else if ext == ".png" then "image/png"
    else if ext == ".jpg" || ext == ".jpeg" then "image/jpeg"
    else if ext == ".gif" then "image/gif"
    else if ext == ".svg" then "image/svg+xml"
    else if ext == ".json" then "application/json"
    else "text/plain"
  }

  /** http_get_mime_type: NULL gives application/octet-stream, a name without a dot text/plain. */
  function MimeType(filename: Option<string>): (r: string)
    ensures filename.None? ==> r == "application/octet-stream"
    ensures filename.Some? && '.' !in filename.value ==> r == "text/plain"
    ensures filename.Some? && '.' in filename.value ==>
              r == MimeOf(filename.value[LastIndexOf(filename.value, '.').value..])
  {
    match filename
    case None => "application/octet-stream"
    case Some(name) =>
      match LastIndexOf(name, '.')
      case None => "text/plain"
      case Some(dot) => MimeOf(name[dot..])
  }

  /** Only the suffix from the last dot counts: any stem followed by an extension gets that extension's type. */
  lemma MimeTypeOfExtension(stem: string, ext: string)
    requires ext != [] && ext[0] == '.' && '.' !in ext[1..]
    ensures MimeType(Some(stem + ext)) == MimeOf(ext)
  {
    var name := stem + ext;
    assert name[|stem|] == '.';
    var dot := LastIndexOf(name, '.').value;
    forall j | dot < j < |name| ensures name[j] != '.' {
      assert name[dot + 1..][j - dot - 1] == name[j];
    }
    forall j | |stem| < j < |name| ensures name[j] != '.' {
      assert name[j] == ext[j - |stem|];
      assert ext[1..][j - |stem| - 1] == ext[j - |stem|];
    }
    assert dot == |stem|;
    assert name[|stem|..] == ext;
  }

  /** The examples of src/main.c: index.html is text/html. */
  lemma MimeTypeHtmlExample()
    ensures MimeType(Some("index.html")) == "text/html"
  {
    MimeExample("index", ".html", "index.html");
  }

  /** photo.jpg is image/jpeg. */
  lemma MimeTypeJpegExample()
    ensures MimeType(Some("photo.jpg")) == "image/jpeg"
  {
    MimeExample("photo", ".jpg", "photo.jpg");
  }

  /** style.css is text/css. */
  lemma MimeTypeCssExample()
    ensures MimeType(Some("style.css")) == "text/css"
  {
    MimeExample("style", ".css", "style.css");
  }

  /** script.js is application/javascript. */
  lemma MimeTypeJsExample()
    ensures MimeType(Some("script.js")) == "application/javascript"
  {
    MimeExample("script", ".js", "script.js");
  }

  /** image.png is image/png. */
  lemma MimeTypePngExample()
    ensures MimeType(Some("image.png")) == "image/png"
  {
    MimeExample("image", ".png", "image.png");
  }

  /** data.json is application/json. */
  lemma MimeTypeJsonExample()
    ensures MimeType(Some("data.json")) == "application/json"
  {
    MimeExample("data", ".json", "data.json");
  }

  /** unknown.xyz falls back to text/plain. */
  lemma MimeTypeUnknownExample()
    ensures MimeType(Some("unknown.xyz")) == "text/plain"
  {
    MimeExample("unknown", ".xyz", "unknown.xyz");
    UnknownSuffix();
  }

  lemma UnknownSuffix()
    ensures MimeOf(".xyz") == "text/plain"
  {
    assert ".xyz" !in KnownExtensions;
  }

  lemma MimeExample(stem: string, ext: string, name: string)
    requires name == stem + ext && ext != [] && ext[0] == '.' && '.' !in ext[1..]
    ensures MimeType(Some(name)) == MimeOf(ext)
  {
    MimeTypeOfExtension(stem, ext);
  }

  // ---------------------------------------------------------------------------
  // Status phrases and the response header
  // ---------------------------------------------------------------------------

  /** http_status_message */
  function StatusMessage(code: int): (r: string)
    ensures r == "Unknown" <==> code !in {200, 400, 403, 404, 500, 501}
  {
    match code
    case 200 => "OK"
    case 404 => "Not Found"
    case 403 => "Forbidden"
    case 500 => "Internal Server Error"
    case 501 => "Not Implemented"
    case 400 => "Bad Request"
    case _ => "Unknown"
  }

  /** Known codes have pairwise different phrases. */
  lemma StatusMessagesDistinct(a: int, b: int)
    requires a in {200, 400, 403, 404, 500, 501} && b in {200, 400, 403, 404, 500, 501}
    requires StatusMessage(a) == StatusMessage(b)
    ensures a == b
  {
  }

  /** The status line of section 4 of RFC 9112, with the version fixed at HTTP/1.1. */
  function StatusLine(code: int): string {
    "HTTP/1.1 " + IntToString(code) + " " + StatusMessage(code)
  }

  /** The header fields in the order http_create_response_header writes them, status line first. */
  function HeaderFields(code: int, contentType: Option<string>, contentLength: nat, date: string): seq<string> {
    [StatusLine(code)] + FixedFields(date)
    + (if contentType.Some? then ["Content-Type: " + contentType.value] else [])
    + (if contentLength > 0 then ["Content-Length: " + NatToString(contentLength)] else [])
  }

  /** Each line followed by CR LF, as the successive snprintf and strcat calls build them. */
  function CrlfLines(ls: seq<string>): string
    decreases |ls|
  {
    if ls == [] then "" else ls[0] + "\r\n" + CrlfLines(ls[1..])
  }

  /** size_t, 64 bits wide. */
  type SizeT = n: nat | n < 0x1_0000_0000_0000_0000

  /** snprintf into a buffer of size bytes: the text, cut to size - 1 characters when it does not fit. */
  function Snprintf(text: string, size: nat): (r: string)
    requires size > 0
    ensures |r| < size && |r| <= |text| && r == text[..|r|]
    ensures |text| < size ==> r == text
  {
    if |text| < size then text else text[..size - 1]
  }

  /** The temp buffers of http.c:136 and http.c:142. */
  const TypeBufferSize: nat := 512
  const LengthBufferSize: nat := 128

  /** The longest type whose whole Content-Type line, CR LF included, fits temp[512]. */
  const MaxWholeContentType: nat := 495

  /** The Content-Type text http.c:137 writes into temp[512]. */
  function TypeChunk(t: string): string {
    Snprintf("Content-Type: " + t + "\r\n", TypeBufferSize)
  }

  /** The Content-Length text http.c:143 writes into temp[128]. */
  function LengthChunk(n: nat): string {
    Snprintf("Content-Length: " + NatToString(n) + "\r\n", LengthBufferSize)
  }

  /**
   * http_create_response_header, with the Date value as a parameter; None for
   * content_type is NULL. The status line and fixed fields, each ended by CR
   * LF, then the optional field texts as snprintf leaves them in their temp
   * buffers, then the empty line.
   */
  function ResponseHeader(code: int, contentType: Option<string>, contentLength: SizeT, date: string): string {
    CrlfLines([StatusLine(code)] + FixedFields(date))
    + (if contentType.Some? then TypeChunk(contentType.value) else "")
    + (if contentLength > 0 then LengthChunk(contentLength) else "")
    + "\r\n"
  }

  /** A type of at most 495 characters keeps its whole line. */
  lemma TypeChunkWhole(t: string)
    requires |t| <= MaxWholeContentType
    ensures TypeChunk(t) == "Content-Type: " + t + "\r\n"
  {
  }

  /**
   * A longer type is cut to the 511 characters temp[512] holds: a type of
   * exactly 496 characters loses the LF and keeps the CR, one of 497 loses
   * both CR and LF, and a longer one also loses the type after its 497th
   * character.
   */
  lemma TypeChunkTruncated(t: string)
    requires |t| > MaxWholeContentType
    ensures TypeChunk(t) == ("Content-Type: " + t + "\r\n")[..511]
    ensures |t| == 496 ==> TypeChunk(t) == "Content-Type: " + t + "\r"
    ensures |t| >= 497 ==> TypeChunk(t) == "Content-Type: " + t[..497]
    ensures '\r' !in t ==> TypeChunk(t)[509..] != "\r\n"
  {
    var full := "Content-Type: " + t + "\r\n";
    if |t| == 496 {
      assert full[..511] == "Content-Type: " + t + "\r";
    } else {
      assert full[..511] == "Content-Type: " + t[..497];
    }
    if '\r' !in t {
      assert TypeChunk(t)[509] == t[495];
    }
  }

  /** Every size_t length keeps its whole line, at most 38 characters. */
  lemma LengthChunkWhole(n: SizeT)
    ensures LengthChunk(n) == "Content-Length: " + NatToString(n) + "\r\n"
  {
    MachineWordDigits(n);
  }

  lemma {:induction false} CrlfLinesAppend(a: seq<string>, b: seq<string>)
    ensures CrlfLines(a + b) == CrlfLines(a) + CrlfLines(b)
    decreases |a|
  {
    if a == [] {
      assert a + b == b;
    } else {
      assert (a + b)[0] == a[0];
      assert (a + b)[1..] == a[1..] + b;
      CrlfLinesAppend(a[1..], b);
    }
  }

  /**
   * With a type of at most 495 characters nothing is cut: the header is the
   * fields of HeaderFields, each ended by CR LF, then the empty line.
   */
  lemma ResponseHeaderWhole(code: int, contentType: Option<string>, contentLength: SizeT, date: string)
    requires contentType.Some? ==> |contentType.value| <= MaxWholeContentType
    ensures ResponseHeader(code, contentType, contentLength, date)
         == CrlfLines(HeaderFields(code, contentType, contentLength, date)) + "\r\n"
  {
    var base := [StatusLine(code)] + FixedFields(date);
    var opt1: seq<string> := if contentType.Some? then ["Content-Type: " + contentType.value] else [];
    var opt2: seq<string> := if contentLength > 0 then ["Content-Length: " + NatToString(contentLength)] else [];
    if contentType.Some? {
      TypeChunkWhole(contentType.value);
    }
    LengthChunkWhole(contentLength);
    OptionalLine(opt1);
    OptionalLine(opt2);
    CrlfLinesAppend(base, opt1);
    CrlfLinesAppend(base + opt1, opt2);
    assert HeaderFields(code, contentType, contentLength, date) == base + opt1 + opt2;
  }

  lemma OptionalLine(ls: seq<string>)
    requires |ls| <= 1
    ensures CrlfLines(ls) == if ls == [] then "" else ls[0] + "\r\n"
  {
    if ls != [] {
      assert ls[1..] == [];
    }
  }

  /**
   * A type of 496 characters or more loses the line's LF (497 or more also
   * lose the CR, and 498 or more the type's tail), so the Content-Length text,
   * or the final empty line, runs on in the same line.
   */
  lemma ResponseHeaderTypeTruncated(code: int, t: string, contentLength: SizeT, date: string)
    requires |t| > MaxWholeContentType
    ensures ResponseHeader(code, Some(t), contentLength, date)
         == CrlfLines([StatusLine(code)] + FixedFields(date))
            + ("Content-Type: " + t + "\r\n")[..511]
            + (if contentLength > 0 then "Content-Length: " + NatToString(contentLength) + "\r\n" else "")
            + "\r\n"
  {
    TypeChunkTruncated(t);
    LengthChunkWhole(contentLength);
  }

  lemma {:induction false} CrlfLinesEnd(ls: seq<string>)
    requires ls != []
    ensures |CrlfLines(ls)| >= 2 && CrlfLines(ls)[|CrlfLines(ls)| - 2..] == "\r\n"
    decreases |ls|
  {
    var rest := CrlfLines(ls[1..]);
    if ls[1..] != [] {
      CrlfLinesEnd(ls[1..]);
      assert (ls[0] + "\r\n" + rest)[|ls[0] + "\r\n" + rest| - 2..] == rest[|rest| - 2..];
    } else {
      assert rest == "";
    }
  }

  /** The header starts with the status line and its CR LF and ends with an empty line, "\r\n\r\n". */
  lemma ResponseHeaderFraming(code: int, contentType: Option<string>, contentLength: SizeT, date: string)
    requires contentType.Some? ==> |contentType.value| <= MaxWholeContentType
    ensures var h := ResponseHeader(code, contentType, contentLength, date);
      && |h| >= |StatusLine(code)| + 4
      && h[..|StatusLine(code)| + 2] == StatusLine(code) + "\r\n"
      && h[|h| - 4..] == "\r\n\r\n"
  {
    ResponseHeaderWhole(code, contentType, contentLength, date);
    var fields := HeaderFields(code, contentType, contentLength, date);
    var body := CrlfLines(fields);
    var first := StatusLine(code) + "\r\n";
    assert fields[0] == StatusLine(code);
    assert body == first + CrlfLines(fields[1..]);
    assert fields[1..] != [];
    CrlfLinesEnd(fields[1..]);
    CrlfLinesEnd(fields);
    var h := body + "\r\n";
    assert h[..|first|] == first;
    assert h[|h| - 4..] == body[|body| - 2..] + "\r\n";
  }

  /** The position of the first CR LF pair in s. */
  function FindCrlf(s: string): (r: Option<nat>)
    ensures r.Some? ==> r.value + 2 <= |s| && s[r.value] == '\r' && s[r.value + 1] == '\n'
    decreases |s|
  {
    if |s| < 2 then None
    else if s[0] == '\r' && s[1] == '\n' then Some(0)
    else match FindCrlf(s[1..])
      case None => None
      case Some(i) => Some(i + 1)
  }

  /** s cut at every CR LF: the lines a client reads back. */
  function Lines(s: string): seq<string>
    decreases |s|
  {
    match FindCrlf(s)
    case None => [s]
    case Some(i) => [s[..i]] + Lines(s[i + 2..])
  }

  lemma {:induction false} FindCrlfAfterLine(a: string, b: string)
    requires '\r' !in a
    ensures FindCrlf(a + "\r\n" + b) == Some(|a|)
    decreases |a|
  {
    var s := a + "\r\n" + b;
    if a != [] {
      assert a[0] in a;
      assert forall c :: c in a[1..] ==> c in a;
      assert s[1..] == a[1..] + "\r\n" + b;
      FindCrlfAfterLine(a[1..], b);
    }
  }

  lemma LinesCons(a: string, b: string)
    requires '\r' !in a
    ensures Lines(a + "\r\n" + b) == [a] + Lines(b)
  {
    var s := a + "\r\n" + b;
    FindCrlfAfterLine(a, b);
    assert s[..|a|] == a;
    assert s[|a| + 2..] == b;
  }

  lemma LinesOfEmptyLine()
    ensures Lines("\r\n") == ["", ""]
  {
    assert "\r\n" == "" + "\r\n" + "";
    LinesCons("", "");
  }

  lemma CrlfLinesCons(ls: seq<string>)
    requires ls != []
    ensures CrlfLines(ls) + "\r\n" == ls[0] + "\r\n" + (CrlfLines(ls[1..]) + "\r\n")
  {
  }

  /** No line of ls holds a carriage return. */
  predicate NoCrLines(ls: seq<string>) {
    forall j :: 0 <= j < |ls| ==> '\r' !in ls[j]
  }

  lemma ConsAssoc(x: string, xs: seq<string>, tail: seq<string>)
    ensures [x] + (xs + tail) == ([x] + xs) + tail
  {
  }

  lemma LinesOfCrlfLinesStep(ls: seq<string>, tail: seq<string>)
    requires ls != [] && '\r' !in ls[0]
    requires Lines(CrlfLines(ls[1..]) + "\r\n") == ls[1..] + tail
    ensures Lines(CrlfLines(ls) + "\r\n") == ls + tail
  {
    var r := CrlfLines(ls[1..]) + "\r\n";
    CrlfLinesCons(ls);
    LinesCons(ls[0], r);
    ConsAssoc(ls[0], ls[1..], tail);
    assert [ls[0]] + ls[1..] == ls;
  }

  /** Lines ended by CR LF and then an empty line split back into those lines, the empty line and what follows it. */
  lemma {:induction false} LinesOfCrlfLines(ls: seq<string>)
    requires NoCrLines(ls)
    ensures Lines(CrlfLines(ls) + "\r\n") == ls + ["", ""]
    decreases |ls|
  {
    if ls == [] {
      LinesOfEmptyLine();
    } else {
      assert '\r' !in ls[0];
      assert NoCrLines(ls[1..]) by {
        forall j | 0 <= j < |ls[1..]| ensures '\r' !in ls[1..][j] {
          assert ls[1..][j] == ls[j + 1];
        }
      }
      LinesOfCrlfLines(ls[1..]);
      LinesOfCrlfLinesStep(ls, ["", ""]);
    }
  }

  lemma NoCrLinesAppend(a: seq<string>, b: seq<string>)
    requires NoCrLines(a) && NoCrLines(b)
    ensures NoCrLines(a + b)
  {
    forall j | 0 <= j < |a + b| ensures '\r' !in (a + b)[j] {
      if j < |a| {
        assert (a + b)[j] == a[j];
      } else {
        assert (a + b)[j] == b[j - |a|];
      }
    }
  }

  lemma NoCrAppend(a: string, b: string)
    requires '\r' !in a && '\r' !in b
    ensures '\r' !in a + b
  {
  }

  lemma NoCrInFixedFields(date: string)
    requires '\r' !in date
    ensures NoCrLines(FixedFields(date))
  {
    NoCrAppend("Date: ", date);
  }

  lemma NoCrInNumber(n: nat)
    ensures '\r' !in NatToString(n)
  {
    var digits := NatToString(n);
    assert forall i :: 0 <= i < |digits| ==> IsDigit(digits[i]);
  }

  lemma NoCrInInteger(i: int)
    ensures '\r' !in IntToString(i)
  {
    if i < 0 {
      NoCrInNumber(-i);
      assert IntToString(i) == "-" + NatToString(-i);
    } else {
      NoCrInNumber(i);
    }
  }

  lemma NoCrInStatusMessage(code: int)
    ensures '\r' !in StatusMessage(code)
  {
  }

  lemma NoCrInStatusLine(code: int)
    ensures '\r' !in StatusLine(code)
  {
    NoCrInInteger(code);
    NoCrInStatusMessage(code);
  }

  /**
   * Split at CR LF, the header is its fields in order (status line, Server,
   * Date, Connection, Content-Type when a type is given, Content-Length when
   * the length is positive), then the empty line that ends the header and the
   * empty remainder after it.
   */
  lemma ResponseHeaderLines(code: int, contentType: Option<string>, contentLength: SizeT, date: string)
    requires contentType.Some? ==> |contentType.value| <= MaxWholeContentType
    requires '\r' !in date
    requires contentType.Some? ==> '\r' !in contentType.value
    ensures Lines(ResponseHeader(code, contentType, contentLength, date))
         == HeaderFields(code, contentType, contentLength, date) + ["", ""]
  {
    ResponseHeaderWhole(code, contentType, contentLength, date);
    NoCrInHeaderFields(code, contentType, contentLength, date);
    LinesOfCrlfLines(HeaderFields(code, contentType, contentLength, date));
  }

  lemma NoCrInHeaderFields(code: int, contentType: Option<string>, contentLength: nat, date: string)
    requires '\r' !in date
    requires contentType.Some? ==> '\r' !in contentType.value
    ensures NoCrLines(HeaderFields(code, contentType, contentLength, date))
  {
    NoCrInStatusLine(code);
    NoCrInFixedFields(date);
    var opt1: seq<string> := if contentType.Some? then ["Content-Type: " + contentType.value] else [];
    var opt2: seq<string> := if contentLength > 0 then ["Content-Length: " + NatToString(contentLength)] else [];
    if contentType.Some? {
      NoCrAppend("Content-Type: ", contentType.value);
    }
    NoCrInNumber(contentLength);
    NoCrAppend("Content-Length: ", NatToString(contentLength));
    assert NoCrLines([StatusLine(code)]);
    assert NoCrLines(opt1) && NoCrLines(opt2);
    NoCrLinesAppend([StatusLine(code)], FixedFields(date));
    NoCrLinesAppend([StatusLine(code)] + FixedFields(date), opt1);
    NoCrLinesAppend([StatusLine(code)] + FixedFields(date) + opt1, opt2);
    assert HeaderFields(code, contentType, contentLength, date) == [StatusLine(code)] + FixedFields(date) + opt1 + opt2;
  }

  /** The fixed fields that every header carries, after the status line. */
  function FixedFields(date: string): seq<string> {
    ["Server: Concurrent-HTTP-Server", "Date: " + date, "Connection: close"]
  }

  lemma StatusLineStart(code: int)
    ensures |StatusLine(code)| > 0 && StatusLine(code)[0] == 'H'
  {
  }

  /** No field other than a Content-Type line starts "Content-Type: ". */
  lemma TypeLineDiffers(t: string, code: int, date: string, x: string)
    ensures "Content-Type: " + t != StatusLine(code)
    ensures "Content-Type: " + t !in FixedFields(date)
    ensures "Content-Type: " + t != "Content-Length: " + x
    ensures "Content-Type: " + t != ""
  {
    StatusLineStart(code);
    var y := "Content-Type: " + t;
    assert y[0] == 'C' && y[3] == 't' && y[8] == 'T';
    var z := "Content-Length: " + x;
    assert z[8] == 'L';
  }

  /** No field other than a Content-Length line starts "Content-Length: ". */
  lemma LengthLineDiffers(x: string, code: int, date: string)
    ensures "Content-Length: " + x != StatusLine(code)
    ensures "Content-Length: " + x !in FixedFields(date)
    ensures "Content-Length: " + x != ""
  {
    StatusLineStart(code);
    var y := "Content-Length: " + x;
    assert y[0] == 'C' && y[3] == 't' && y[8] == 'L';
  }

  lemma AfterPrefix(p: string, a: string, b: string)
    requires p + a == p + b
    ensures a == b
  {
    assert a == (p + a)[|p|..];
    assert b == (p + b)[|p|..];
  }

  /** The only Content-Type field is the one naming the given type. */
  lemma TypeLineIn(t: string, code: int, contentType: Option<string>, contentLength: nat, date: string)
    requires "Content-Type: " + t in HeaderFields(code, contentType, contentLength, date) + ["", ""]
    ensures contentType == Some(t)
  {
    var x := "Content-Type: " + t;
    var opt1: seq<string> := if contentType.Some? then ["Content-Type: " + contentType.value] else [];
    var opt2: seq<string> := if contentLength > 0 then ["Content-Length: " + NatToString(contentLength)] else [];
    assert HeaderFields(code, contentType, contentLength, date) + ["", ""]
        == [StatusLine(code)] + FixedFields(date) + opt1 + opt2 + ["", ""];
    TypeLineDiffers(t, code, date, NatToString(contentLength));
    assert x in opt1;
    AfterPrefix("Content-Type: ", t, contentType.value);
  }

  /** The only Content-Length field is the one naming the given positive length. */
  lemma LengthLineIn(x: string, code: int, contentType: Option<string>, contentLength: nat, date: string)
    requires "Content-Length: " + x in HeaderFields(code, contentType, contentLength, date) + ["", ""]
    ensures contentLength > 0 && x == NatToString(contentLength)
  {
    var y := "Content-Length: " + x;
    var opt1: seq<string> := if contentType.Some? then ["Content-Type: " + contentType.value] else [];
    var opt2: seq<string> := if contentLength > 0 then ["Content-Length: " + NatToString(contentLength)] else [];
    assert HeaderFields(code, contentType, contentLength, date) + ["", ""]
        == [StatusLine(code)] + FixedFields(date) + opt1 + opt2 + ["", ""];
    LengthLineDiffers(x, code, date);
    if contentType.Some? {
      TypeLineDiffers(contentType.value, code, date, x);
    }
    assert y in opt2;
    AfterPrefix("Content-Length: ", x, NatToString(contentLength));
  }

  /**
   * The header holds a Content-Type line exactly when a type is given, and
   * then only the one naming that type.
   */
  lemma ResponseHeaderTypeField(code: int, contentType: Option<string>, contentLength: SizeT, date: string)
    requires contentType.Some? ==> |contentType.value| <= MaxWholeContentType
    requires '\r' !in date
    requires contentType.Some? ==> '\r' !in contentType.value
    ensures contentType.Some? ==> "Content-Type: " + contentType.value in Lines(ResponseHeader(code, contentType, contentLength, date))
    ensures forall t :: "Content-Type: " + t in Lines(ResponseHeader(code, contentType, contentLength, date))
                        ==> contentType == Some(t)
  {
    ResponseHeaderLines(code, contentType, contentLength, date);
    forall t | "Content-Type: " + t in Lines(ResponseHeader(code, contentType, contentLength, date))
      ensures contentType == Some(t)
    {
      TypeLineIn(t, code, contentType, contentLength, date);
    }
  }

  /**
   * The header holds a Content-Length line exactly when the length is
   * positive, and then only the one naming that length.
   */
  lemma ResponseHeaderLengthField(code: int, contentType: Option<string>, contentLength: SizeT, date: string)
    requires contentType.Some? ==> |contentType.value| <= MaxWholeContentType
    requires '\r' !in date
    requires contentType.Some? ==> '\r' !in contentType.value
    ensures contentLength > 0 ==> "Content-Length: " + NatToString(contentLength) in Lines(ResponseHeader(code, contentType, contentLength, date))
    ensures forall x :: "Content-Length: " + x in Lines(ResponseHeader(code, contentType, contentLength, date))
                        ==> contentLength > 0 && x == NatToString(contentLength)
  {
    ResponseHeaderLines(code, contentType, contentLength, date);
    forall x | "Content-Length: " + x in Lines(ResponseHeader(code, contentType, contentLength, date))
      ensures contentLength > 0 && x == NatToString(contentLength)
    {
      LengthLineIn(x, code, contentType, contentLength, date);
    }
  }

  // ---------------------------------------------------------------------------
  // Traversal check
  // ---------------------------------------------------------------------------

  /** The path has ".." somewhere. */
  predicate HasDotDot(s: string) {
    exists i :: 0 <= i < |s| - 1 && s[i] == '.' && s[i + 1] == '.'
  }

  /** strstr(path, "..") != NULL, scanning from the front. */
  function ContainsDotDot(s: string): (b: bool)
    ensures b <==> HasDotDot(s)
    decreases |s|
  {
    if |s| < 2 then false
    else if s[0] == '.' && s[1] == '.' then true
    else
      var b := ContainsDotDot(s[1..]);
      assert HasDotDot(s[1..]) ==> HasDotDot(s) by {
        if HasDotDot(s[1..]) {
          var i :| 0 <= i < |s[1..]| - 1 && s[1..][i] == '.' && s[1..][i + 1] == '.';
          assert s[i + 1] == '.' && s[i + 2] == '.';
        }
      }
      assert HasDotDot(s) ==> HasDotDot(s[1..]) by {
        if HasDotDot(s) {
          var i :| 0 <= i < |s| - 1 && s[i] == '.' && s[i + 1] == '.';
          assert i != 0;
          assert s[1..][i - 1] == '.' && s[1..][i] == '.';
        }
      }
      b
  }

  /** http_is_safe_path: 0 for NULL or a path containing "..", 1 for everything else, absolute paths included. */
  function IsSafePath(path: Option<string>): (r: int)
    ensures r == 0 || r == 1
    ensures r == 0 <==> path.None? || HasDotDot(path.value)
  {
    if path.None? then 0
    else if ContainsDotDot(path.value) then 0
    else 1
  }

  /** The examples of src/main.c. */
  lemma IsSafePathExamples()
    ensures IsSafePath(Some("/index.html")) == 1
    ensures IsSafePath(Some("/../etc/passwd")) == 0
    ensures IsSafePath(Some("/images/../logo.png")) == 0
  {
    var p := "/index.html";
    assert !HasDotDot(p) by {
      assert forall i :: 0 <= i < |p| - 1 && p[i] == '.' ==> i == 6;
    }
    var q := "/../etc/passwd";
    assert q[1] == '.' && q[2] == '.';
    var r := "/images/../logo.png";
    assert r[8] == '.' && r[9] == '.';
  }
}
