/** The text parsers of the Kafka bridge (experiments/jr_kafka/jr_kafka.c):
    the `key|header|message` framing of `parse_buffer`, the `key=value`
    lines of `read_config_file`, the `-p` port argument, and the check that
    decides whether a received buffer is produced at all.

    C strings are modelled as `seq<char>` read up to the first NUL. */
module KafkaBridge {
  import opened Common

  const Delimiter: char := '|'
  const Nul: char := 0 as char

  /** `MAX_KEY_SIZE - 1` and `MAX_HEADER_SIZE - 1`: the longest key and
      header that fit with their terminating NUL. */
  const MaxKey: nat := 255
  const MaxHeader: nat := 1023

  /** `BUFFER_SIZE - 1`: the most one `read` delivers. */
  const MaxRead: nat := 1023

  const MinPort: int := 1
  const MaxPort: int := 65535

  /** ---------- C strings ---------- */

  /** The first index of `c` in `s`, or `|s|` when there is none
      (`strcspn(s, {c})`). */
  function IndexOf(s: string, c: char): (i: nat)
    ensures i <= |s|
    ensures i < |s| ==> s[i] == c
    ensures forall j :: 0 <= j < i ==> s[j] != c
    decreases |s|
  {
    if |s| == 0 then 0 else if s[0] == c then 0 else 1 + IndexOf(s[1..], c)
  }

  /** `IndexOf` reaches the end exactly when `c` does not occur. */
  lemma IndexOfEnd(s: string, c: char)
    ensures IndexOf(s, c) == |s| <==> c !in s
  {
    if c in s {
      var k :| 0 <= k < |s| && s[k] == c;
      assert IndexOf(s, c) <= k;
    }
  }

  /** What C sees of a buffer: the characters before the first NUL. */
  function CString(buf: string): (r: string)
    ensures r <= buf
    ensures Nul !in r
    ensures Nul !in buf ==> r == buf
  {
    buf[..IndexOf(buf, Nul)]
  }

  /** `strncpy(dst, src, n - 1); dst[n - 1] = '\0'`: at most `n - 1` characters. */
  function Truncate(s: string, max: nat): (r: string)
    ensures r <= s
    ensures |r| == if |s| <= max then |s| else max
  {
    if |s| <= max then s else s[..max]
  }

  /** ---------- strtok_r ---------- */

  /** The number of leading delimiters (`strspn(s, "|")`). */
  function SkipDelims(s: string): (i: nat)
    ensures i <= |s|
    ensures forall j :: 0 <= j < i ==> s[j] == Delimiter
    ensures i < |s| ==> s[i] != Delimiter
    decreases |s|
  {
    if |s| == 0 || s[0] != Delimiter then 0 else 1 + SkipDelims(s[1..])
  }

  /** A token and the text after it, as `strtok_r` leaves them. */
  datatype Token = Token(token: string, rest: string)

  /** `strtok_r(s, "|", &save)`: skip delimiters; nothing left means no
      token; otherwise the token runs to the next delimiter, which is
      overwritten, and scanning resumes after it. */
  function NextToken(s: string): (r: Option<Token>)
    ensures r.None? <==> forall j :: 0 <= j < |s| ==> s[j] == Delimiter
    ensures r.Some? ==> |r.value.token| > 0 && Delimiter !in r.value.token
  {
    var i := SkipDelims(s);
    if i == |s| then None else Some(TokenFrom(s[i..]))
  }

  /** The token at the very start of `t` and the text after its delimiter. */
  function TokenFrom(t: string): Token {
    var n := IndexOf(t, Delimiter);
    if n < |t| then Token(t[..n], t[n + 1..]) else Token(t, "")
  }

  /** A token splits its text into the skipped delimiters, the token, and
      either a delimiter and the rest, or nothing. */
  lemma NextTokenSplits(s: string)
    requires NextToken(s).Some?
    ensures var t := NextToken(s).value;
      || s == s[..SkipDelims(s)] + t.token + [Delimiter] + t.rest
      || (s == s[..SkipDelims(s)] + t.token && t.rest == "")
  {
    var i := SkipDelims(s);
    var t := s[i..];
    var n := IndexOf(t, Delimiter);
    var tok := NextToken(s).value;
    if n < |t| {
      assert tok == Token(t[..n], t[n + 1..]);
      CutAt(s, i, n);
      assert s == s[..i] + tok.token + [Delimiter] + tok.rest;
    } else {
      assert tok == Token(t, "");
      assert s == s[..i] + tok.token;
    }
  }

  /** A delimiter at `i + n` cuts `s` into the part before `i`, the `n`
      characters from `i`, the delimiter, and the rest. */
  lemma CutAt(s: string, i: nat, n: nat)
    requires i + n < |s| && s[i + n] == Delimiter
    ensures s == s[..i] + s[i..][..n] + [Delimiter] + s[i..][n + 1..]
  {
    var t := s[i..];
    assert t == t[..n] + [Delimiter] + t[n + 1..];
    assert s == s[..i] + t;
  }

  /** `strtok_r(NULL, "", &save)`: with no delimiters, the whole remaining
      text, or no token when it is empty. */
  function RestToken(s: string): (r: Option<string>)
    ensures r.None? <==> s == ""
    ensures r.Some? ==> r.value == s
  {
    if s == "" then None else Some(s)
  }

  /** ---------- parse_buffer ---------- */

  /** `ParsedMessage`: fixed-size key and header, and a message that
      points into the buffer or is NULL. */
  datatype Parsed = Parsed(key: string, header: string, message: Option<string>)

  /** `parse_buffer` on the C string `buf`. */
  function ParseBuffer(buf: string): (r: Parsed)
    requires Nul !in buf
    ensures |r.key| <= MaxKey && |r.header| <= MaxHeader
    ensures Delimiter !in r.key && Delimiter !in r.header
    // No key token: everything stays empty.
    ensures NextToken(buf).None? ==> r == Parsed("", "", None)
    // The key is the first token, cut to 255 characters.
    ensures NextToken(buf).Some? ==> r.key == Truncate(NextToken(buf).value.token, MaxKey)
    // No header token: header empty and no message.
    ensures NextToken(buf).Some? && NextToken(NextToken(buf).value.rest).None? ==>
      r.header == "" && r.message.None?
    // The message is whatever follows the header's delimiter, if anything.
    ensures NextToken(buf).Some? && NextToken(NextToken(buf).value.rest).Some? ==>
      var h := NextToken(NextToken(buf).value.rest).value;
      r.header == Truncate(h.token, MaxHeader) && r.message == RestToken(h.rest)
  {
    match NextToken(buf)
    case None => Parsed("", "", None)
    case Some(k) =>
      match NextToken(k.rest)
      case None => Parsed(Truncate(k.token, MaxKey), "", None)
      case Some(h) => Parsed(Truncate(k.token, MaxKey), Truncate(h.token, MaxHeader), RestToken(h.rest))
  }

  /** The frame a client sends: key, header and message joined by `|`. */
  function Frame(key: string, header: string, message: string): string {
    key + [Delimiter] + header + [Delimiter] + message
  }

  /** A frame whose key and header are non-empty, free of delimiters and
      short enough, and whose message is non-empty, parses back into its
      three parts; the message may itself contain delimiters. */
  lemma ParseFrame(key: string, header: string, message: string)
    requires 0 < |key| <= MaxKey && Delimiter !in key
    requires 0 < |header| <= MaxHeader && Delimiter !in header
    requires |message| > 0
    requires Nul !in Frame(key, header, message)
    ensures ParseBuffer(Frame(key, header, message)) == Parsed(key, header, Some(message))
  {
    FrameTokens(key, header, message);
    ParseOfTokens(Frame(key, header, message), key, header + [Delimiter] + message, header, message);
  }

  /** The two tokens of a frame. */
  lemma FrameTokens(key: string, header: string, message: string)
    requires 0 < |key| && Delimiter !in key
    requires 0 < |header| && Delimiter !in header
    ensures NextToken(Frame(key, header, message)) == Some(Token(key, header + [Delimiter] + message))
    ensures NextToken(header + [Delimiter] + message) == Some(Token(header, message))
  {
    var afterKey := header + [Delimiter] + message;
    TokenOf(key, afterKey);
    assert Frame(key, header, message) == key + [Delimiter] + afterKey;
    TokenOf(header, message);
  }

  /** `parse_buffer` once both tokens are known. */
  lemma ParseOfTokens(buf: string, key: string, afterKey: string, header: string, rest: string)
    requires Nul !in buf
    requires NextToken(buf) == Some(Token(key, afterKey))
    requires NextToken(afterKey) == Some(Token(header, rest))
    ensures ParseBuffer(buf) == Parsed(Truncate(key, MaxKey), Truncate(header, MaxHeader), RestToken(rest))
  {
  }

  /** `NextToken` of a token, a delimiter and more text. */
  lemma TokenOf(tok: string, rest: string)
    requires |tok| > 0 && Delimiter !in tok
    ensures NextToken(tok + [Delimiter] + rest) == Some(Token(tok, rest))
  {
    var s := tok + [Delimiter] + rest;
    assert s[0] == tok[0];
    assert SkipDelims(s) == 0;
    assert s[0..] == s;
    assert IndexOf(s, Delimiter) == |tok| by {
      assert s[|tok|] == Delimiter;
      assert forall j :: 0 <= j < |tok| ==> s[j] == tok[j];
    }
    assert s[..|tok|] == tok;
    assert s[|tok| + 1..] == rest;
  }

  /** Leading delimiters are skipped: they never make an empty key. */
  lemma LeadingDelimitersSkipped(buf: string)
    requires Nul !in buf
    ensures ParseBuffer([Delimiter] + buf) == ParseBuffer(buf)
  {
    SkipOneDelimiter(buf);
    SameTokensSameParse([Delimiter] + buf, buf);
  }

  lemma SkipOneDelimiter(buf: string)
    ensures NextToken([Delimiter] + buf) == NextToken(buf)
  {
    var s := [Delimiter] + buf;
    assert s[1..] == buf;
    assert SkipDelims(s) == 1 + SkipDelims(buf);
    assert s[SkipDelims(s)..] == buf[SkipDelims(buf)..];
  }

  /** `parse_buffer` looks at its input only through `strtok_r`. */
  lemma SameTokensSameParse(a: string, b: string)
    requires Nul !in a && Nul !in b
    requires NextToken(a) == NextToken(b)
    ensures ParseBuffer(a) == ParseBuffer(b)
  {
  }

  /** A frame with a missing last part is rejected: `key|header` and
      `key|header|` carry no message. */
  lemma MissingMessage(key: string, header: string)
    requires 0 < |key| && Delimiter !in key
    requires 0 < |header| && Delimiter !in header
    requires Nul !in key + header
    ensures !Valid(ParseBuffer(key + [Delimiter] + header))
    ensures !Valid(ParseBuffer(key + [Delimiter] + header + [Delimiter]))
  {
    TokenOf(key, header);
    NoDelimiterToken(header);
    TokenOf(key, header + [Delimiter]);
    assert key + [Delimiter] + header + [Delimiter] == key + [Delimiter] + (header + [Delimiter]);
    TokenOf(header, "");
    assert header + [Delimiter] + "" == header + [Delimiter];
  }

  /** A token with no delimiter after it runs to the end. */
  lemma NoDelimiterToken(tok: string)
    requires |tok| > 0 && Delimiter !in tok
    ensures NextToken(tok) == Some(Token(tok, ""))
  {
    assert SkipDelims(tok) == 0;
    assert tok[0..] == tok;
    assert IndexOf(tok, Delimiter) == |tok|;
  }

  /** The check in `main`: a buffer is produced only when key, header and
      message are all non-empty. */
  predicate Valid(m: Parsed) {
    |m.key| > 0 && |m.header| > 0 && m.message.Some?
  }

  /** What is handed to Kafka: the key and the message; the header is parsed
      but not attached (the headers argument is commented out). */
  datatype KafkaRecord = KafkaRecord(key: string, value: string)

  /** One received buffer of `bytes_read` bytes, terminated after them. */
  function Receive(raw: string): (r: Option<KafkaRecord>)
    requires 0 < |raw| <= MaxRead
    ensures r.Some? <==> Valid(ParseBuffer(CString(raw)))
    ensures r.Some? ==>
      r.value == KafkaRecord(ParseBuffer(CString(raw)).key, ParseBuffer(CString(raw)).message.value)
  {
    var m := ParseBuffer(CString(raw));
    if !Valid(m) then None else Some(KafkaRecord(m.key, m.message.value))
  }

  /** A well-formed frame is produced as its key and message. */
  lemma ReceiveFrame(key: string, header: string, message: string)
    requires 0 < |key| <= MaxKey && Delimiter !in key
    requires 0 < |header| <= MaxHeader && Delimiter !in header
    requires |message| > 0
    requires Nul !in Frame(key, header, message)
    requires |Frame(key, header, message)| <= MaxRead
    ensures Receive(Frame(key, header, message)) == Some(KafkaRecord(key, message))
  {
    ParseFrame(key, header, message);
  }

  /** An over-long key is cut to its first 255 characters. */
  lemma LongKeyTruncated(key: string, header: string, message: string)
    requires |key| > MaxKey && Delimiter !in key
    requires 0 < |header| <= MaxHeader && Delimiter !in header
    requires |message| > 0
    requires Nul !in Frame(key, header, message)
    ensures ParseBuffer(Frame(key, header, message)) == Parsed(key[..MaxKey], header, Some(message))
  {
    FrameTokens(key, header, message);
    ParseOfTokens(Frame(key, header, message), key, header + [Delimiter] + message, header, message);
  }

  /** ---------- read_config_file ---------- */

  /** Only `isspace` characters. */
  predicate Blank(t: string) {
    forall j :: 0 <= j < |t| ==> IsSpace(t[j])
  }

  /** `isspace` trimming from the right (the key) and the left (the value):
      the longest prefix (suffix) after which only white space remains. */
  function TrimRight(s: string): (r: string)
    ensures r <= s && Blank(s[|r|..])
    ensures |r| > 0 ==> !IsSpace(r[|r| - 1])
    decreases |s|
  {
    if |s| > 0 && IsSpace(s[|s| - 1]) then
      var r := TrimRight(s[..|s| - 1]);
      assert s[|r|..] == s[..|s| - 1][|r|..] + [s[|s| - 1]];
      r
    else s
  }

  function TrimLeft(s: string): (r: string)
    ensures |r| <= |s| && s == s[..|s| - |r|] + r && Blank(s[..|s| - |r|])
    ensures |r| > 0 ==> !IsSpace(r[0])
    decreases |s|
  {
    if |s| > 0 && IsSpace(s[0]) then
      var r := TrimLeft(s[1..]);
      assert r == s[|s| - |r|..] by {
        assert s[1..][|s| - 1 - |r|..] == s[|s| - |r|..];
      }
      assert Blank(s[..|s| - |r|]) by {
        assert s[..|s| - |r|] == [s[0]] + s[1..][..|s| - 1 - |r|];
      }
      r
    else s
  }

  datatype Pair = Pair(key: string, value: string)

  /** The text of a line that `read_config_file` looks at: up to the first
      NUL, then up to the first newline. */
  function LineText(line: string): string {
    var l := CString(line);
    l[..IndexOf(l, '\n')]
  }

  /** The lines the model covers: at most 1023 characters, as `fgets`
      returns them. Of these only a pair line whose key part (before the
      first `=`) has 255 characters or more is left out: `strncpy` then
      leaves the key without its terminator. Comment, blank and `=`-less
      lines are covered at any length. */
  predicate LineBounded(line: string) {
    && |line| < 1024
    && (|| (|line| > 0 && (line[0] == '#' || line[0] == '\n'))
        || IndexOf(LineText(line), '=') == |LineText(line)|
        || IndexOf(LineText(line), '=') < 255)
  }

  /** One line as `fgets` returns it. Comment and blank lines, and lines
      without `=`, give nothing. */
  function ParseConfigLine(line: string): (r: Option<Pair>)
    requires LineBounded(line)
    ensures |line| > 0 && (line[0] == '#' || line[0] == '\n') ==> r.None?
    ensures !(|line| > 0 && (line[0] == '#' || line[0] == '\n')) ==> r == SplitPair(LineText(line))
  {
    if |line| > 0 && (line[0] == '#' || line[0] == '\n') then None else SplitPair(LineText(line))
  }

  /** Splits at the first `=`, trimming the key on the right and the value
      on the left; no `=` gives nothing. */
  function SplitPair(text: string): (r: Option<Pair>)
    ensures r.None? <==> '=' !in text
    ensures r.Some? ==>
      var sep := IndexOf(text, '=');
      && sep < |text|
      && r.value == Pair(TrimRight(text[..sep]), TrimLeft(text[sep + 1..]))
  {
    var sep := IndexOf(text, '=');
    if sep == |text| then
      IndexOfEnd(text, '=');
      None
    else
      assert text[sep] == '=';
      Some(Pair(TrimRight(text[..sep]), TrimLeft(text[sep + 1..])))
  }

  /** A line reads as its key and value: the key is every character
      before the first `=` except trailing white space, the value every
      character after it except leading white space and the newline. */
  lemma ParseConfigLineRoundTrip(key: string, pad1: string, pad2: string, value: string)
    requires |key| > 0 && !IsSpace(key[|key| - 1]) && key[0] != '#'
    requires '=' !in key && '\n' !in key && Nul !in key
    requires Blank(pad1) && '\n' !in pad1
    requires Blank(pad2) && '\n' !in pad2
    requires |value| > 0 ==> !IsSpace(value[0])
    requires '\n' !in value && Nul !in value
    requires |key| + |pad1| < 255 && |key + pad1 + "=" + pad2 + value| < 1023
    ensures var line := key + pad1 + "=" + pad2 + value + "\n";
      LineBounded(line) && ParseConfigLine(line) == Some(Pair(key, value))
  {
    var head, tail := key + pad1, pad2 + value;
    var text := head + "=" + tail;
    var line := text + "\n";
    BlankIsPlain(pad1);
    BlankIsPlain(pad2);
    assert key + pad1 + "=" + pad2 + value + "\n" == line;
    assert LineText(line) == text by {
      assert '\n' !in text && Nul !in text;
      LineTextOf(text);
    }
    assert IndexOf(text, '=') == |head| by {
      assert '=' !in head;
      IndexOfAfter(head, '=', tail);
      assert text == head + ['='] + tail;
    }
    assert SplitPair(text) == Some(Pair(key, value)) by {
      SplitPairOf(head, tail);
      TrimRightPadding(key, pad1);
      TrimLeftPadding(pad2, value);
    }
    assert line[0] == key[0];
  }

  /** White space holds neither NUL, `=` nor, in particular, the key's
      terminator. */
  lemma BlankIsPlain(pad: string)
    requires Blank(pad)
    ensures Nul !in pad && '=' !in pad
  {
  }

  /** A newline-terminated line without NUL is read up to its newline. */
  lemma LineTextOf(text: string)
    requires '\n' !in text && Nul !in text
    ensures LineText(text + "\n") == text
  {
    var line := text + "\n";
    assert Nul !in line;
    IndexOfAfter(text, '\n', "");
    assert line == text + ['\n'] + "";
    assert line[..|text|] == text;
  }

  /** A line is split at its first `=`. */
  lemma SplitPairOf(head: string, tail: string)
    requires '=' !in head
    ensures SplitPair(head + "=" + tail) == Some(Pair(TrimRight(head), TrimLeft(tail)))
  {
    var text := head + "=" + tail;
    IndexOfAfter(head, '=', tail);
    assert text == head + ['='] + tail;
    assert text[..|head|] == head;
    assert text[|head| + 1..] == tail;
  }

  /** The first `c` after a prefix without one. */
  lemma {:induction false} IndexOfAfter(prefix: string, c: char, rest: string)
    requires c !in prefix
    ensures IndexOf(prefix + [c] + rest, c) == |prefix|
    decreases |prefix|
  {
    var s := prefix + [c] + rest;
    if |prefix| > 0 {
      assert s[1..] == prefix[1..] + [c] + rest;
      IndexOfAfter(prefix[1..], c, rest);
    }
  }

  lemma {:induction false} TrimRightPadding(s: string, pad: string)
    requires |s| > 0 && !IsSpace(s[|s| - 1])
    requires Blank(pad)
    ensures TrimRight(s + pad) == s
    decreases |pad|
  {
    if |pad| == 0 {
      assert s + pad == s;
    } else {
      assert (s + pad)[..|s + pad| - 1] == s + pad[..|pad| - 1];
      TrimRightPadding(s, pad[..|pad| - 1]);
    }
  }

  lemma {:induction false} TrimLeftPadding(pad: string, s: string)
    requires |s| > 0 ==> !IsSpace(s[0])
    requires Blank(pad)
    ensures TrimLeft(pad + s) == s
    decreases |pad|
  {
    if |pad| == 0 {
      assert pad + s == s;
    } else {
      assert (pad + s)[1..] == pad[1..] + s;
      TrimLeftPadding(pad[1..], s);
    }
  }

  /** Every line `read_config_file` may meet, under the bounds above. */
  predicate ConfigLines(lines: seq<string>) {
    forall i :: 0 <= i < |lines| ==> LineBounded(lines[i])
  }

  /** The pairs of the file, in order, each line contributing at most one. */
  function ConfigPairs(lines: seq<string>): (r: seq<Pair>)
    requires ConfigLines(lines)
    ensures |r| <= |lines|
    decreases |lines|
  {
    if |lines| == 0 then []
    else
      var rest := ConfigPairs(lines[1..]);
      match ParseConfigLine(lines[0])
      case None => rest
      case Some(p) => [p] + rest
  }

  /** Hands `pairs` to `rd_kafka_conf_set` in order (`accept` is whether it
      takes one); the first rejection fails the whole file. */
  predicate AllAccepted(pairs: seq<Pair>, accept: Pair -> bool) {
    forall i :: 0 <= i < |pairs| ==> accept(pairs[i])
  }

  function SetAll(pairs: seq<Pair>, accept: Pair -> bool): (r: Option<seq<Pair>>)
    ensures r.Some? <==> AllAccepted(pairs, accept)
    ensures r.Some? ==> r.value == pairs
    decreases |pairs|
  {
    if |pairs| == 0 then Some([])
    else if !accept(pairs[0]) then None
    else
      var rest := SetAll(pairs[1..], accept);
      assert forall i :: 1 <= i < |pairs| ==> pairs[i] == pairs[1..][i - 1];
      if rest.None? then None else Some([pairs[0]] + rest.value)
  }

  /** `read_config_file`: the configuration holds every pair of the file
      when `rd_kafka_conf_set` takes them all, else there is none. Parsing
      a line has no effect, so parsing all lines first and then setting
      the pairs is the same as interleaving the two. */
  function ReadConfig(lines: seq<string>, accept: Pair -> bool): (r: Option<seq<Pair>>)
    requires ConfigLines(lines)
    ensures r.Some? <==> AllAccepted(ConfigPairs(lines), accept)
    ensures r.Some? ==> r.value == ConfigPairs(lines)
  {
    SetAll(ConfigPairs(lines), accept)
  }

  /** Comment lines contribute nothing, wherever they are. */
  lemma CommentLinesIgnored(lines: seq<string>, comment: string)
    requires ConfigLines(lines)
    requires 0 < |comment| < 1024 && comment[0] == '#'
    ensures ConfigLines([comment] + lines)
    ensures ConfigPairs([comment] + lines) == ConfigPairs(lines)
  {
    assert ([comment] + lines)[1..] == lines;
  }

  /** ---------- The -p argument ---------- */

  /** The number of leading `isspace` characters. */
  function SkipSpaces(s: string): (i: nat)
    ensures i <= |s|
    ensures forall j :: 0 <= j < i ==> IsSpace(s[j])
    ensures i < |s| ==> !IsSpace(s[i])
    decreases |s|
  {
    if |s| == 0 || !IsSpace(s[0]) then 0 else 1 + SkipSpaces(s[1..])
  }

  /** The number of leading decimal digits. */
  function CountDigits(s: string): (i: nat)
    ensures i <= |s|
    ensures forall j :: 0 <= j < i ==> IsDigit(s[j])
    ensures i < |s| ==> !IsDigit(s[i])
    decreases |s|
  {
    if |s| == 0 || !IsDigit(s[0]) then 0 else 1 + CountDigits(s[1..])
  }

  /** `strtol(s, &end, 10)`: the value and where parsing stopped; with no
      digits, the value is 0 and `end` is the start of the string. Values
      are unbounded: the clamping to `LONG_MIN`/`LONG_MAX` gives the same
      verdict below, as both lie outside the port range. */
  datatype Parsed10 = Parsed10(value: int, end: nat)

  /** The run of digits at the start of `t`: its value and length. */
  function Magnitude(t: string): (r: Parsed10)
    ensures r.end == CountDigits(t)
  {
    var n := CountDigits(t);
    if n == 0 then Parsed10(0, 0) else Parsed10(DigitsValue(t[..n]), n)
  }

  function StrTol(s: string): (r: Parsed10)
    ensures r.end <= |s|
    ensures r.end == 0 ==> r.value == 0
  {
    var i := SkipSpaces(s);
    var signed := i < |s| && (s[i] == '+' || s[i] == '-');
    var j := if signed then i + 1 else i;
    var m := Magnitude(s[j..]);
    if m.end == 0 then Parsed10(0, 0)
    else Parsed10(if signed && s[i] == '-' then -m.value else m.value, j + m.end)
  }

  /** The `-p` check: the whole argument must be consumed and the value
      must lie in 1..65535. */
  function ParsePort(arg: string): (r: Option<int>)
    requires Nul !in arg
    ensures r.Some? ==> MinPort <= r.value <= MaxPort
    ensures r.Some? <==> StrTol(arg).end == |arg| && MinPort <= StrTol(arg).value <= MaxPort
  {
    var t := StrTol(arg);
    if t.end != |arg| || t.value < MinPort || t.value > MaxPort then None else Some(t.value)
  }

  /** A port written in decimal, after any white space and an optional `+`,
      is accepted as itself. */
  lemma ParsePortRoundTrip(pad: string, plus: bool, port: int)
    requires MinPort <= port <= MaxPort
    requires forall j :: 0 <= j < |pad| ==> IsSpace(pad[j])
    ensures var arg := pad + (if plus then "+" else "") + NatToString(port);
      Nul !in arg && ParsePort(arg) == Some(port)
  {
    var digits := NatToString(port);
    var sign := if plus then "+" else "";
    assert Nul !in pad by {
      assert forall j :: 0 <= j < |pad| ==> pad[j] != Nul;
    }
    assert Nul !in digits by {
      assert forall j :: 0 <= j < |digits| ==> digits[j] != Nul;
    }
    StrTolOf(pad, sign, digits);
    DigitsValueOfNatToString(port);
  }

  /** `strtol` of white space, an optional `+` and digits. */
  lemma StrTolOf(pad: string, sign: string, digits: string)
    requires forall j :: 0 <= j < |pad| ==> IsSpace(pad[j])
    requires sign == "" || sign == "+"
    requires |digits| > 0 && forall j :: 0 <= j < |digits| ==> IsDigit(digits[j])
    ensures StrTol(pad + sign + digits) == Parsed10(DigitsValue(digits), |pad + sign + digits|)
  {
    SignedDigitsAfterSpaces(pad, sign, digits);
    MagnitudeOf(digits);
    StrTolAt(pad + sign + digits, |pad|, |pad| + |sign|);
  }

  /** Where the sign and the digits sit in white space, a sign and digits. */
  lemma SignedDigitsAfterSpaces(pad: string, sign: string, digits: string)
    requires forall j :: 0 <= j < |pad| ==> IsSpace(pad[j])
    requires sign == "" || sign == "+"
    requires |digits| > 0 && forall j :: 0 <= j < |digits| ==> IsDigit(digits[j])
    ensures var arg := pad + sign + digits;
      && SkipSpaces(arg) == |pad|
      && arg[|pad|] == (if sign == "" then digits[0] else '+')
      && arg[|pad| + |sign|..] == digits
  {
    var arg := pad + sign + digits;
    assert (sign + digits)[0] == if sign == "" then digits[0] else '+';
    SkipSpacesPrefix(pad, sign + digits);
    assert arg == pad + (sign + digits);
  }

  /** `strtol` once the white space is skipped and the sign is known not to be `-`. */
  lemma StrTolAt(s: string, i: nat, j: nat)
    requires SkipSpaces(s) == i && i < |s| && s[i] != '-'
    requires j == (if s[i] == '+' then i + 1 else i)
    requires Magnitude(s[j..]).end > 0
    ensures StrTol(s) == Parsed10(Magnitude(s[j..]).value, j + Magnitude(s[j..]).end)
  {
  }

  lemma MagnitudeOf(digits: string)
    requires |digits| > 0 && forall j :: 0 <= j < |digits| ==> IsDigit(digits[j])
    ensures Magnitude(digits) == Parsed10(DigitsValue(digits), |digits|)
  {
    AllDigits(digits);
    assert digits[..|digits|] == digits;
  }

  lemma {:induction false} SkipSpacesPrefix(pad: string, s: string)
    requires forall j :: 0 <= j < |pad| ==> IsSpace(pad[j])
    requires |s| > 0 && !IsSpace(s[0])
    ensures SkipSpaces(pad + s) == |pad|
    decreases |pad|
  {
    if |pad| == 0 {
      assert pad + s == s;
    } else {
      assert (pad + s)[1..] == pad[1..] + s;
      SkipSpacesPrefix(pad[1..], s);
    }
  }

  lemma {:induction false} AllDigits(s: string)
    requires forall j :: 0 <= j < |s| ==> IsDigit(s[j])
    ensures CountDigits(s) == |s|
    decreases |s|
  {
    if |s| > 0 {
      AllDigits(s[1..]);
    }
  }

  /** A negative number, or anything after the digits, is refused. */
  lemma ParsePortRejects(digits: string, tail: string)
    requires |digits| > 0 && forall j :: 0 <= j < |digits| ==> IsDigit(digits[j])
    requires |tail| > 0 && !IsDigit(tail[0])
    requires Nul !in digits + tail && Nul !in "-" + digits
    ensures ParsePort("-" + digits).None?
    ensures ParsePort(digits + tail).None?
  {
    var neg := "-" + digits;
    assert neg[1..] == digits;
    AllDigits(digits);
    assert neg[1..1 + |digits|] == digits;
    var s := digits + tail;
    assert s[0] == digits[0];
    assert s[..|digits|] == digits;
    assert CountDigits(s) == |digits| by {
      CountDigitsPrefix(digits, tail);
    }
    assert s[0..] == s;
  }

  lemma {:induction false} CountDigitsPrefix(digits: string, tail: string)
    requires forall j :: 0 <= j < |digits| ==> IsDigit(digits[j])
    requires |tail| > 0 && !IsDigit(tail[0])
    ensures CountDigits(digits + tail) == |digits|
    decreases |digits|
  {
    if |digits| == 0 {
      assert digits + tail == tail;
    } else {
      assert (digits + tail)[1..] == digits[1..] + tail;
      CountDigitsPrefix(digits[1..], tail);
    }
  }
}
