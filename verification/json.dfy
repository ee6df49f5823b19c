/**
  JavaScript-like values, as seen by a schema validator that receives
  `unknown` input: the JSON kinds plus `undefined`. Objects keep their
  properties in insertion order; a property read returns the first binding
  of a key (a JavaScript object never binds a key twice), and `undefined`
  for a missing key, exactly as `obj[key]` does.
*/
module Json {

  datatype Option<T> = None | Some(value: T)

  datatype Value =
    | Undefined
    | Null
    | Bool(b: bool)
    | Num(n: real)
    | Str(s: string)
    | Arr(items: seq<Value>)
    | Obj(members: seq<Member>)

  datatype Member = Member(key: string, value: Value)

  /** Position of the first binding of `key`, or `|ms|` when there is none. */
  function KeyIndex(ms: seq<Member>, key: string): (j: nat)
    ensures j <= |ms|
    ensures j < |ms| ==> ms[j].key == key
    ensures forall i :: 0 <= i < j ==> ms[i].key != key
  {
    if |ms| == 0 then 0
    else if ms[0].key == key then 0
    else 1 + KeyIndex(ms[1..], key)
  }

  /** `v[key]`: the property value, or `undefined` when `v` is not an object or lacks the key. */
  function Get(v: Value, key: string): Value
  {
    match v
    case Obj(ms) =>
      var j := KeyIndex(ms, key);
      if j < |ms| then ms[j].value else Undefined
    case _ => Undefined
  }

  /** The object literal `{ [key]: v }`. */
  function Single(key: string, v: Value): (r: Value)
    ensures r.Obj? && |r.members| == 1
    ensures Get(r, key) == v
  {
    Obj([Member(key, v)])
  }

  /** JavaScript truthiness (`!!v`); NaN is not a value of this model. */
  predicate Truthy(v: Value)
  {
    match v
    case Undefined => false
    case Null => false
    case Bool(b) => b
    case Num(n) => n != 0.0
    case Str(s) => s != ""
    case _ => true
  }

  // ---------------------------------------------------------------------
  // String literals as `JSON.stringify` writes them

  function HexDigit(d: nat): (c: char)
    requires d < 16
    ensures HexValue(c) == Some(d)
  {
    "0123456789abcdef"[d]
  }

  function HexValue(c: char): (r: Option<nat>)
    ensures r.Some? ==> r.value < 16
  {
    if '0' <= c <= '9' then Some(c as int - '0' as int)
    else if 'a' <= c <= 'f' then Some(c as int - 'a' as int + 10)
    else if 'A' <= c <= 'F' then Some(c as int - 'A' as int + 10)
    else None
  }

  /**
    The escaped form of one character inside a JSON string: `"` and `\`
    are backslash-escaped, the five control characters with a short form
    use it, every other control character becomes `\u00XX`, and anything
    else is written as it is.
  */
  function EscapeChar(c: char): (r: string)
    ensures |r| >= 1
    ensures |r| == 1 <==> r == [c]
  {
    if c == '"' then ['\\', '"']
    else if c == '\\' then ['\\', '\\']
    else if c == '\U{8}' then ['\\', 'b']
    else if c == '\U{C}' then ['\\', 'f']
    else if c == '\n' then ['\\', 'n']
    else if c == '\r' then ['\\', 'r']
    else if c == '\t' then ['\\', 't']
    else if c < ' ' then
      var hi := if c < '\U{10}' then 0 else 1;
      ['\\', 'u', '0', '0', HexDigit(hi), HexDigit(c as int - 16 * hi)]
    else [c]
  }

  /** The body of the JSON string literal for `s`, without the surrounding quotes. */
  function Escape(s: string): (r: string)
  {
    if |s| == 0 then [] else EscapeChar(s[0]) + Escape(s[1..])
  }

  /** A character `JSON.stringify` writes unchanged. */
  predicate PlainChar(c: char)
  {
    c >= ' ' && c != '"' && c != '\\'
  }

  function Prepend(c: char, r: Option<string>): Option<string>
  {
    if r.Some? then Some([c] + r.value) else None
  }

  /** The value of four hexadecimal digits. */
  function Hex4(s: string): Option<nat>
    requires |s| == 4
  {
    var a, b, c, d := HexValue(s[0]), HexValue(s[1]), HexValue(s[2]), HexValue(s[3]);
    if a.Some? && b.Some? && c.Some? && d.Some? then Some(((a.value * 16 + b.value) * 16 + c.value) * 16 + d.value)
    else None
  }

  /**
    Reads the body of a JSON string literal back, as `JSON.parse` does; a
    malformed escape, or a `\u` escape naming a lone surrogate, gives `None`.
  */
  function Unescape(s: string): (r: Option<string>)
    decreases |s|
  {
    if |s| == 0 then Some([])
    else if s[0] != '\\' then Prepend(s[0], Unescape(s[1..]))
    else if |s| < 2 then None
    else if s[1] == '"' then Prepend('"', Unescape(s[2..]))
    else if s[1] == '\\' then Prepend('\\', Unescape(s[2..]))
    else if s[1] == '/' then Prepend('/', Unescape(s[2..]))
    else if s[1] == 'b' then Prepend('\U{8}', Unescape(s[2..]))
    else if s[1] == 'f' then Prepend('\U{C}', Unescape(s[2..]))
    else if s[1] == 'n' then Prepend('\n', Unescape(s[2..]))
    else if s[1] == 'r' then Prepend('\r', Unescape(s[2..]))
    else if s[1] == 't' then Prepend('\t', Unescape(s[2..]))
    else if s[1] == 'u' && |s| >= 6 then
      match Hex4(s[2..6])
      case Some(code) =>
        if code < 0xD800 || 0xE000 <= code then Prepend(code as char, Unescape(s[6..])) else None
      case None => None
    else None
  }

  lemma UnescapeEscapeChar(c: char, t: string)
    ensures Unescape(EscapeChar(c) + t) == Prepend(c, Unescape(t))
  {
    if c < ' ' && c != '\U{8}' && c != '\U{C}' && c != '\n' && c != '\r' && c != '\t' {
      UnescapeControl(c, t);
    } else if |EscapeChar(c)| == 2 {
      assert (EscapeChar(c) + t)[2..] == t;
    } else {
      assert (EscapeChar(c) + t)[1..] == t;
    }
  }

  /** A control character without a short form reads back from its `\u00XX` escape. */
  lemma UnescapeControl(c: char, t: string)
    requires c < ' ' && c != '\U{8}' && c != '\U{C}' && c != '\n' && c != '\r' && c != '\t'
    ensures Unescape(EscapeChar(c) + t) == Prepend(c, Unescape(t))
  {
    var e := EscapeChar(c) + t;
    var hi := if c < '\U{10}' then 0 else 1;
    var lo := c as int - 16 * hi;
    assert e[2..6] == ['0', '0', HexDigit(hi), HexDigit(lo)];
    assert Hex4(e[2..6]) == Some(hi * 16 + lo);
    assert e[6..] == t;
  }

  /** Escaping loses nothing: reading the literal back gives the original string. */
  lemma {:induction false} UnescapeEscape(s: string)
    ensures Unescape(Escape(s)) == Some(s)
  {
    if |s| > 0 {
      UnescapeEscape(s[1..]);
      UnescapeEscapeChar(s[0], Escape(s[1..]));
      assert [s[0]] + s[1..] == s;
    }
  }

  /** Escaping works character by character, so it distributes over concatenation. */
  lemma {:induction false} EscapeAppend(a: string, b: string)
    ensures Escape(a + b) == Escape(a) + Escape(b)
  {
    if |a| == 0 {
      assert a + b == b;
    } else {
      assert (a + b)[1..] == a[1..] + b;
      EscapeAppend(a[1..], b);
    }
  }

  /** A prefix of plain characters is written unchanged in front of the escaped rest. */
  lemma PlainPrefix(a: string, b: string)
    requires forall i :: 0 <= i < |a| ==> PlainChar(a[i])
    ensures Escape(a + b) == a + Escape(b)
  {
    EscapeAppend(a, b);
    EscapePlain(a);
  }

  /** A string of plain characters is written unchanged. */
  lemma {:induction false} EscapePlain(s: string)
    requires forall i :: 0 <= i < |s| ==> PlainChar(s[i])
    ensures Escape(s) == s
  {
    if |s| > 0 {
      EscapePlain(s[1..]);
    }
  }
}
