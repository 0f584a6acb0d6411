/** Values shared by every part of the service: optional values, results,
    the loosely typed metadata values a caller may attach to a document,
    and the few pieces of Python's `str()` and truthiness the code relies on. */
module Values {

  datatype Option<T> = None | Some(value: T)

  datatype Result<T, E> = Success(value: T) | Failure(error: E)

  /** A metadata value: Python's None, a str, an int or a bool. */
  datatype Value = VNone | VStr(s: string) | VInt(i: int) | VBool(b: bool)

  /** A metadata dictionary (key order plays no part in anything the core computes). */
  type Metadata = map<string, Value>

  /** An embedding vector. */
  type Vector = seq<real>

  /** One retrieved chunk as the query service hands it on: its text, its stored
      metadata, its (rounded) similarity score and its id. */
  datatype ContextChunk = ContextChunk(text: string, metadata: Metadata, similarityScore: real, chunkId: string)

  /** Python truthiness of a metadata value: None, "", 0 and False are falsy. */
  predicate Truthy(v: Value)
  {
    match v
    case VNone => false
    case VStr(s) => s != ""
    case VInt(i) => i != 0
    case VBool(b) => b
  }

  /** Python truthiness of an optional string (`if request.text:`). */
  predicate Present(s: Option<string>)
  {
    s.Some? && s.value != ""
  }

  /** `d.get(key, default)` */
  function Get(m: Metadata, key: string, default: Value): Value
  {
    if key in m then m[key] else default
  }

  function DigitChar(d: nat): (c: char)
    requires d < 10
    ensures '0' <= c <= '9' && c as int - '0' as int == d
  {
    (d + '0' as int) as char
  }

  /** `str(n)` for a non-negative int: its decimal digits, no leading zeros. */
  function NatToString(n: nat): (s: string)
    ensures 1 <= |s|
    ensures |s| == 1 <==> n < 10
    ensures forall i :: 0 <= i < |s| ==> '0' <= s[i] <= '9'
    ensures s[|s| - 1] == DigitChar(n % 10)
  {
    if n < 10 then [DigitChar(n)] else NatToString(n / 10) + [DigitChar(n % 10)]
  }

  /** Distinct numbers have distinct decimal renderings. */
  lemma {:induction false} NatToStringInjective(a: nat, b: nat)
    requires NatToString(a) == NatToString(b)
    ensures a == b
  {
    var s := NatToString(a);
    if a >= 10 && b >= 10 {
      assert NatToString(a / 10) == s[..|s| - 1] == NatToString(b / 10);
      NatToStringInjective(a / 10, b / 10);
    }
  }

  /** `str(i)` for any int. */
  function IntToString(i: int): string
  {
    if i < 0 then "-" + NatToString(-i) else NatToString(i)
  }

  /** `str(v)` / f-string rendering of a metadata value. */
  function ValueToString(v: Value): string
  {
    match v
    case VNone => "None"
    case VStr(s) => s
    case VInt(i) => IntToString(i)
    case VBool(b) => if b then "True" else "False"
  }

  /** The exceptions the core raises or maps, with the message `str(e)` shows. */
  datatype Exception =
    | ValueError(message: string)
    | FileNotFoundError(message: string)
    | HttpException(statusCode: nat, detail: string)
    | OtherException(message: string)

  /** `str(e)`. An `HTTPException` renders as `"<status>: <detail>"`. */
  function ExceptionText(e: Exception): string
  {
    match e
    case ValueError(m) => m
    case FileNotFoundError(m) => m
    case HttpException(code, detail) => NatToString(code) + ": " + detail
    case OtherException(m) => m
  }

  /** `"sep".join(parts)` */
  function Join(sep: string, parts: seq<string>): string
    decreases |parts|
  {
    if |parts| == 0 then ""
    else if |parts| == 1 then parts[0]
    else Join(sep, parts[..|parts| - 1]) + sep + parts[|parts| - 1]
  }

  /** Where `parts[i]` begins in `Join(sep, parts)`. */
  function Offset(sep: string, parts: seq<string>, i: nat): nat
    requires i <= |parts|
  {
    if i == 0 then 0 else Offset(sep, parts, i - 1) + |parts[i - 1]| + |sep|
  }

  lemma {:induction false} OffsetPrefix(sep: string, parts: seq<string>, k: nat, i: nat)
    requires i <= k <= |parts|
    ensures Offset(sep, parts[..k], i) == Offset(sep, parts, i)
  {
    if i > 0 {
      OffsetPrefix(sep, parts, k, i - 1);
      assert parts[..k][i - 1] == parts[i - 1];
    }
  }

  lemma {:induction false} JoinLength(sep: string, parts: seq<string>)
    requires |parts| >= 1
    ensures |Join(sep, parts)| == Offset(sep, parts, |parts| - 1) + |parts[|parts| - 1]|
    decreases |parts|
  {
    var n := |parts|;
    if n > 1 {
      var front := parts[..n - 1];
      JoinLength(sep, front);
      OffsetPrefix(sep, parts, n - 1, n - 2);
      assert front[n - 2] == parts[n - 2];
    }
  }

  /** `Join` with more than one part: the join of all but the last, `sep`, the last. */
  lemma {:induction false} JoinSnoc(sep: string, parts: seq<string>)
    requires |parts| > 1
    ensures Join(sep, parts) == Join(sep, parts[..|parts| - 1]) + sep + parts[|parts| - 1]
    ensures |Join(sep, parts[..|parts| - 1])| + |sep| == Offset(sep, parts, |parts| - 1)
  {
    var n := |parts|;
    var front := parts[..n - 1];
    JoinLength(sep, front);
    OffsetPrefix(sep, parts, n - 1, n - 2);
    assert front[n - 2] == parts[n - 2];
  }

  lemma SliceOfPrefix<T>(x: seq<T>, y: seq<T>, a: nat, b: nat)
    requires a <= b <= |x|
    ensures (x + y)[a..b] == x[a..b]
  {
  }

  /** The last part ends the joined string. */
  lemma {:induction false} JoinLastAt(sep: string, parts: seq<string>)
    requires |parts| >= 1
    ensures var j := Join(sep, parts); var o := Offset(sep, parts, |parts| - 1);
      o + |parts[|parts| - 1]| == |j| && j[o..] == parts[|parts| - 1]
  {
    var n := |parts|;
    JoinLength(sep, parts);
    if n > 1 {
      JoinSnoc(sep, parts);
      var jf := Join(sep, parts[..n - 1]);
      assert (jf + sep + parts[n - 1])[|jf| + |sep|..] == parts[n - 1];
    }
  }

  /** Part `i` sits at `Offset(i)` in the joined string. */
  lemma {:induction false} JoinPartAt(sep: string, parts: seq<string>, i: nat)
    requires i < |parts|
    ensures var j := Join(sep, parts); var o := Offset(sep, parts, i);
      o + |parts[i]| <= |j| && j[o..o + |parts[i]|] == parts[i]
    decreases |parts|
  {
    var n := |parts|;
    if i == n - 1 {
      JoinLastAt(sep, parts);
    } else {
      var front := parts[..n - 1];
      JoinSnoc(sep, parts);
      var jf := Join(sep, front);
      JoinPartAt(sep, front, i);
      OffsetPrefix(sep, parts, n - 1, i);
      assert front[i] == parts[i];
      var o := Offset(sep, parts, i);
      SliceOfPrefix(jf, sep + parts[n - 1], o, o + |parts[i]|);
      assert jf + sep + parts[n - 1] == jf + (sep + parts[n - 1]);
    }
  }

  /** Every part but the last is followed by `sep`. */
  lemma {:induction false} JoinSepAfter(sep: string, parts: seq<string>, i: nat)
    requires i + 1 < |parts|
    ensures var j := Join(sep, parts); var e := Offset(sep, parts, i) + |parts[i]|;
      e + |sep| <= |j| && j[e..e + |sep|] == sep
    decreases |parts|
  {
    var n := |parts|;
    var front := parts[..n - 1];
    JoinSnoc(sep, parts);
    var jf := Join(sep, front);
    OffsetPrefix(sep, parts, n - 1, i);
    assert front[i] == parts[i];
    var e := Offset(sep, parts, i) + |parts[i]|;
    assert jf + sep + parts[n - 1] == jf + (sep + parts[n - 1]);
    if i + 1 < n - 1 {
      JoinSepAfter(sep, front, i);
      SliceOfPrefix(jf, sep + parts[n - 1], e, e + |sep|);
    } else {
      JoinLength(sep, front);
      assert e == |jf|;
    }
  }

  /** The joined string is the parts in order with `sep` between neighbours:
      part `i` sits at `Offset(i)`, followed by `sep` unless it is the last one. */
  lemma {:induction false} JoinAt(sep: string, parts: seq<string>, i: nat)
    requires i < |parts|
    ensures var j := Join(sep, parts); var o := Offset(sep, parts, i);
      && o + |parts[i]| <= |j|
      && j[o..o + |parts[i]|] == parts[i]
      && (i + 1 < |parts| ==> o + |parts[i]| + |sep| <= |j| && j[o + |parts[i]|..o + |parts[i]| + |sep|] == sep)
  {
    JoinPartAt(sep, parts, i);
    if i + 1 < |parts| {
      JoinSepAfter(sep, parts, i);
    }
  }
}
