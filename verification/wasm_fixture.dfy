/** The WebAssembly test function (internal/plugin/wasm/plugin_test_function.go):
    the exported `produce(size)` reads exactly `size` bytes of a JSON record
    from standard input, writes the upper-cased value to standard output and
    returns 0, or writes an error text to standard error and returns that
    text's length.

    The three standard streams are byte sequences; the JSON decoder and the
    Unicode upper-casing of non-ASCII text are abstract functions of `Env`. */
module WasmFixture {
  import opened Common

  /** The text of a Go error: a Go string, so shorter than 2^63 bytes. */
  type ErrText = t: seq<byte> | |t| < 0x8000_0000_0000_0000

  /** The decoded `record` (the `k`, `v` and `h` members). */
  datatype Record = Record(k: seq<byte>, v: seq<byte>, h: map<string, string>)

  /** `json.Unmarshal(b, &in)`: the record, or the error's text. */
  datatype Decoded = Decoded(rec: Record) | DecodeError(text: ErrText)

  datatype Env = Env(
    decode: seq<byte> -> Decoded,
    // `unicode.ToUpper` over the runes of text that is not all ASCII
    unicodeUpper: seq<byte> -> seq<byte>,
    // the error of `os.Stdout.Write`, if it fails
    stdoutError: Option<ErrText>)

  /** What the guest sees of its sandbox. */
  datatype Sandbox = Sandbox(stdin: seq<byte>, stdout: seq<byte>, stderr: seq<byte>)

  /** `NoError`. */
  const NoError: u64 := 0

  /** The texts of `io.EOF` and `io.ErrUnexpectedEOF`. */
  const EofText: ErrText := [0x45, 0x4F, 0x46]  // "EOF"
  const UnexpectedEofText: ErrText :=           // "unexpected EOF"
    [0x75, 0x6E, 0x65, 0x78, 0x70, 0x65, 0x63, 0x74, 0x65, 0x64, 0x20, 0x45, 0x4F, 0x46]

  /** ---------- io.ReadAtLeast ---------- */

  /** The bytes read, what stays unread, and the error. */
  datatype Read = Read(data: seq<byte>, rest: seq<byte>, err: Option<ErrText>)

  /** `io.ReadAtLeast(stdin, make([]byte, size), size)` on a stream holding
      `input`: it reads until `size` bytes have arrived or the stream ends.
      Ending before any byte is `EOF`, ending part-way is `unexpected EOF`;
      asking for nothing reads nothing and succeeds. */
  function ReadAtLeast(input: seq<byte>, size: nat): (r: Read)
    ensures r.data + r.rest == input
    ensures r.err.None? <==> size <= |input|
    ensures r.err.None? ==> r.data == input[..size]
    ensures r.err == (if size <= |input| then None else if |input| == 0 then Some(EofText) else Some(UnexpectedEofText))
  {
    if size <= |input| then
      assert input[..size] + input[size..] == input;
      Read(input[..size], input[size..], None)
    else if |input| == 0 then Read([], [], Some(EofText))
    else Read(input, [], Some(UnexpectedEofText))
  }

  /** ---------- bytes.ToUpper ---------- */

  predicate IsAscii(s: seq<byte>) {
    forall i :: 0 <= i < |s| ==> s[i] < 0x80
  }

  function UpperByte(c: byte): byte {
    if 'a' as byte <= c <= 'z' as byte then c - 32 else c
  }

  /** `bytes.ToUpper`: byte by byte on ASCII text, rune by rune otherwise. */
  function ToUpper(s: seq<byte>, env: Env): (r: seq<byte>)
    ensures IsAscii(s) ==> |r| == |s|
    ensures IsAscii(s) ==> forall i :: 0 <= i < |s| ==>
      r[i] == (if 'a' as byte <= s[i] <= 'z' as byte then s[i] - 32 else s[i])
    ensures !IsAscii(s) ==> r == env.unicodeUpper(s)
  {
    if IsAscii(s) then seq(|s|, i requires 0 <= i < |s| => UpperByte(s[i]))
    else env.unicodeUpper(s)
  }

  /** ASCII upper-casing leaves no lower-case letter behind and is idempotent. */
  lemma ToUpperIdempotent(s: seq<byte>, env: Env)
    requires IsAscii(s)
    ensures IsAscii(ToUpper(s, env))
    ensures forall i :: 0 <= i < |s| ==> !('a' as byte <= ToUpper(s, env)[i] <= 'z' as byte)
    ensures ToUpper(ToUpper(s, env), env) == ToUpper(s, env)
  {
    var u := ToUpper(s, env);
    assert IsAscii(u);
    assert ToUpper(u, env) == u by {
      var uu := ToUpper(u, env);
      assert |uu| == |u|;
      assert forall i :: 0 <= i < |u| ==> uu[i] == u[i];
    }
  }

  /** ---------- e ---------- */

  /** A Go `error`: nil, or a value whose `Error()` is the text. */
  datatype Err = Nil | Error(text: ErrText)

  datatype Returned = Returned(box: Sandbox, code: u64)

  /** `e(err)`: nil is `NoError`; otherwise the text goes to standard error
      and its length is the return value. */
  function E(box: Sandbox, err: Err): (r: Returned)
    ensures err == Nil ==> r == Returned(box, NoError)
    ensures err.Error? ==> r.box == box.(stderr := box.stderr + err.text) && r.code == |err.text|
    // Only standard error changes, by an append whose length is the code ...
    ensures r.box.stdin == box.stdin && r.box.stdout == box.stdout
    ensures |box.stderr| <= |r.box.stderr| && r.box.stderr[..|box.stderr|] == box.stderr
    ensures r.code == |r.box.stderr| - |box.stderr|
    // ... so the code is `NoError` exactly for nil and for an error whose text is empty.
    ensures r.code == NoError <==> err == Nil || err.text == []
  {
    match err
    case Nil => Returned(box, NoError)
    case Error(text) => Returned(box.(stderr := box.stderr + text), |text|)
  }

  /** ---------- produce ---------- */

  /** `_produce(size)`. */
  function Produce(box: Sandbox, size: u32, env: Env): (r: Returned)
    // Exactly `size` bytes are consumed when they are there; a short read
    // consumes everything.
    ensures r.box.stdin == (if size <= |box.stdin| then box.stdin[size..] else [])
    // A short read reports EOF or unexpected EOF and writes nothing to
    // standard output.
    ensures size > |box.stdin| ==>
      var text := if |box.stdin| == 0 then EofText else UnexpectedEofText;
      r.box.stdout == box.stdout && r.box.stderr == box.stderr + text && r.code == |text|
    // A record that does not decode is reported, and nothing reaches
    // standard output.
    ensures size <= |box.stdin| && env.decode(box.stdin[..size]).DecodeError? ==>
      var text := env.decode(box.stdin[..size]).text;
      r.box.stdout == box.stdout && r.box.stderr == box.stderr + text && r.code == |text|
    // Otherwise the upper-cased value is written, and the call returns 0
    // unless the write fails.
    ensures size <= |box.stdin| && env.decode(box.stdin[..size]).Decoded? ==>
      var out := ToUpper(env.decode(box.stdin[..size]).rec.v, env);
      if env.stdoutError.None? then
        r.box.stdout == box.stdout + out && r.box.stderr == box.stderr && r.code == NoError
      else
        r.box.stdout == box.stdout && r.box.stderr == box.stderr + env.stdoutError.value
        && r.code == |env.stdoutError.value|
  {
    var read := ReadAtLeast(box.stdin, size);
    var after := box.(stdin := read.rest);
    if read.err.Some? then E(after, Error(read.err.value))
    else
      match env.decode(read.data)
      case DecodeError(text) => E(after, Error(text))
      case Decoded(rec) =>
        match env.stdoutError
        case Some(text) => E(after, Error(text))
        case None => Returned(after.(stdout := after.stdout + ToUpper(rec.v, env)), NoError)
  }

  /** The return-code protocol: the code is exactly the number of bytes
      appended to standard error, and a call that appends to standard output
      appends nothing to standard error. */
  lemma ReturnCodeProtocol(box: Sandbox, size: u32, env: Env)
    ensures var r := Produce(box, size, env);
      && |box.stderr| <= |r.box.stderr|
      && r.box.stderr[..|box.stderr|] == box.stderr
      && r.code == |r.box.stderr| - |box.stderr|
      && (r.box.stdout != box.stdout ==> r.code == NoError)
  {
    var r := Produce(box, size, env);
    assert r.box.stderr[..|box.stderr|] == box.stderr by {
      var added := r.box.stderr[|box.stderr|..];
      assert r.box.stderr == box.stderr + added;
    }
  }

  /** A record of exactly `size` bytes followed by more input: the rest of
      the input stays unread, and an ASCII value comes out upper-cased. */
  lemma ProduceRecord(box: Sandbox, payload: seq<byte>, more: seq<byte>, env: Env)
    requires |payload| < 0x1_0000_0000 && box.stdin == payload + more
    requires env.decode(payload).Decoded? && env.stdoutError.None?
    ensures var r := Produce(box, |payload|, env);
      var v := env.decode(payload).rec.v;
      && r.code == NoError
      && r.box == Sandbox(more, box.stdout + ToUpper(v, env), box.stderr)
      && (IsAscii(v) ==> |r.box.stdout| == |box.stdout| + |v|)
  {
    assert box.stdin[..|payload|] == payload;
    assert box.stdin[|payload|..] == more;
  }

  /** An error whose text is empty returns `NoError` and leaves every output
      stream as it was: the host cannot tell it from a record whose value is
      empty. */
  lemma EmptyErrorLooksLikeSuccess(box: Sandbox, size: u32, failing: Env, succeeding: Env, k: seq<byte>, h: map<string, string>)
    requires size <= |box.stdin|
    requires failing.decode(box.stdin[..size]) == DecodeError([])
    requires succeeding.decode(box.stdin[..size]) == Decoded(Record(k, [], h)) && succeeding.stdoutError.None?
    ensures Produce(box, size, failing).code == NoError
    ensures Produce(box, size, failing) == Produce(box, size, succeeding)
  {
    assert ToUpper([], succeeding) == [];
    assert box.stdout + [] == box.stdout && box.stderr + [] == box.stderr;
  }
}
