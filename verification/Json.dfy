/** JSON documents as the metadata journal stores them, and the JSON Pointer
    syntax (section 4 of RFC 6901) that its delta operations use.

    A digest is kept symbolic: `Sha256(document)` stands for the hexadecimal
    digest text of that document, so two digests are equal exactly when the
    digested documents are. */
module Json {
  import opened Wrappers

  datatype Json =
    | Null
    | Bool(b: bool)
    | Num(n: int)
    | Float(x: real)
    | Str(s: string)
    | Hex(digest: Digest)
    | Arr(items: seq<Json>)
    | Obj(members: map<string, Json>)

  /** The text of a digest; `Empty` is the empty string. */
  datatype Digest = Empty | Sha256(document: Json)

  // ---------------------------------------------------------------------------
  // Key order
  // ---------------------------------------------------------------------------

  /** The order in which a JSON object's members are visited. */
  predicate KeyLeq(a: string, b: string) {
    if a == "" then true
    else if b == "" then false
    else a[0] < b[0] || (a[0] == b[0] && KeyLeq(a[1..], b[1..]))
  }

  lemma {:induction false} KeyLeqTotal(a: string, b: string)
    ensures KeyLeq(a, b) || KeyLeq(b, a)
    ensures KeyLeq(a, b) && KeyLeq(b, a) ==> a == b
  {
    if a != "" && b != "" {
      KeyLeqTotal(a[1..], b[1..]);
      assert a == [a[0]] + a[1..] && b == [b[0]] + b[1..];
    }
  }

  lemma {:induction false} KeyLeqTransitive(a: string, b: string, c: string)
    requires KeyLeq(a, b) && KeyLeq(b, c)
    ensures KeyLeq(a, c)
  {
    if a != "" && b != "" && c != "" && a[0] == b[0] == c[0] {
      KeyLeqTransitive(a[1..], b[1..], c[1..]);
    }
  }

  ghost predicate IsLeastKey(k: string, keys: set<string>) {
    k in keys && forall j | j in keys :: KeyLeq(k, j)
  }

  lemma {:induction false} LeastKeyExists(keys: set<string>)
    requires keys != {}
    ensures exists k :: IsLeastKey(k, keys)
  {
    var k :| k in keys;
    var rest := keys - {k};
    KeyLeqTotal(k, k);
    if rest == {} {
      assert keys == {k};
      assert IsLeastKey(k, keys);
    } else {
      LeastKeyExists(rest);
      var l :| IsLeastKey(l, rest);
      KeyLeqTotal(k, l);
      if KeyLeq(k, l) {
        forall j | j in keys ensures KeyLeq(k, j) {
          if j != k { KeyLeqTransitive(k, l, j); }
        }
        assert IsLeastKey(k, keys);
      } else {
        assert IsLeastKey(l, keys);
      }
    }
  }

  lemma LeastKeyUnique(keys: set<string>)
    ensures forall a, b | a in keys && b in keys && KeyLeq(a, b) && KeyLeq(b, a) :: a == b
  {
    forall a, b | a in keys && b in keys && KeyLeq(a, b) && KeyLeq(b, a) ensures a == b {
      KeyLeqTotal(a, b);
    }
  }

  function LeastKey(keys: set<string>): (k: string)
    requires keys != {}
    ensures IsLeastKey(k, keys)
  {
    LeastKeyExists(keys);
    LeastKeyUnique(keys);
    var k :| k in keys && forall j | j in keys :: KeyLeq(k, j);
    k
  }

  ghost predicate Distinct(keys: seq<string>) {
    forall i, j | 0 <= i < j < |keys| :: keys[i] != keys[j]
  }

  /** The keys of an object in iteration order. */
  function SortedKeys(keys: set<string>): (s: seq<string>)
    ensures forall k :: k in s <==> k in keys
    ensures Distinct(s)
    ensures forall i, j | 0 <= i < j < |s| :: KeyLeq(s[i], s[j])
  {
    if keys == {} then []
    else
      var k := LeastKey(keys);
      var rest := SortedKeys(keys - {k});
      [k] + rest
  }

  // ---------------------------------------------------------------------------
  // JSON Pointer text
  // ---------------------------------------------------------------------------

  /** `str::replace` of one character. */
  function ReplaceChar(s: string, c: char, to: string): string {
    if s == "" then "" else (if s[0] == c then to else [s[0]]) + ReplaceChar(s[1..], c, to)
  }

  /** `str::replace` of a two-character pattern: leftmost, non-overlapping. */
  function ReplacePair(s: string, a: char, b: char, to: char): string {
    if |s| < 2 then s
    else if s[0] == a && s[1] == b then [to] + ReplacePair(s[2..], a, b, to)
    else [s[0]] + ReplacePair(s[1..], a, b, to)
  }

  function Escape(key: string): string {
    ReplaceChar(ReplaceChar(key, '~', "~0"), '/', "~1")
  }

  function Unescape(part: string): string {
    ReplacePair(ReplacePair(part, '~', '1', '/'), '~', '0', '~')
  }

  function PushPointer(path: string, key: string): string {
    path + "/" + Escape(key)
  }

  /** `str::split` on one character; always at least one part. */
  function Split(s: string, sep: char): (parts: seq<string>)
    ensures |parts| > 0
  {
    if s == "" then [""]
    else
      var rest := Split(s[1..], sep);
      if s[0] == sep then [""] + rest else [[s[0]] + rest[0]] + rest[1..]
  }

  function UnescapeAll(parts: seq<string>): (r: seq<string>)
    ensures |r| == |parts|
  {
    if parts == [] then [] else UnescapeAll(parts[..|parts| - 1]) + [Unescape(parts[|parts| - 1])]
  }

  /** The reference tokens of a pointer; None when it does not start with a slash. */
  function Tokens(path: string): Option<seq<string>> {
    if path == "" then Some([])
    else if path[0] != '/' then None
    else Some(UnescapeAll(Split(path, '/')[1..]))
  }

  function PointerOf(tokens: seq<string>): string {
    if tokens == [] then ""
    else PushPointer(PointerOf(tokens[..|tokens| - 1]), tokens[|tokens| - 1])
  }

  lemma {:induction false} EscapeStep(c: char, rest: string)
    ensures Escape([c] + rest) == Escape([c]) + Escape(rest)
  {
    ReplaceCharConcat([c], rest, '~', "~0");
    ReplaceCharConcat(ReplaceChar([c], '~', "~0"), ReplaceChar(rest, '~', "~0"), '/', "~1");
  }

  /** Escaping goes character by character: a tilde becomes `~0`, a slash `~1`, and
      anything else stays (section 3 of RFC 6901). */
  lemma EscapeByChar(key: string, c: char)
    ensures Escape("") == ""
    ensures Escape(key + [c]) == Escape(key) + if c == '~' then "~0" else if c == '/' then "~1" else [c]
  {
    ReplaceCharConcat(key, [c], '~', "~0");
    var once := ReplaceChar(key, '~', "~0");
    var last := if c == '~' then "~0" else [c];
    OneReplaced(c, '~', "~0");
    ReplaceCharConcat(once, last, '/', "~1");
    if c == '~' {
      ReplaceCharConcat("~", "0", '/', "~1");
      OneReplaced('~', '/', "~1");
      OneReplaced('0', '/', "~1");
    } else {
      OneReplaced(c, '/', "~1");
    }
  }

  lemma OneReplaced(c: char, from: char, to: string)
    ensures ReplaceChar([c], from, to) == if c == from then to else [c]
  {
    assert [c][1..] == "";
    assert ReplaceChar("", from, to) == "";
  }

  lemma {:induction false} ReplaceCharConcat(s: string, t: string, c: char, to: string)
    ensures ReplaceChar(s + t, c, to) == ReplaceChar(s, c, to) + ReplaceChar(t, c, to)
  {
    if s == "" {
      assert s + t == t;
    } else {
      assert (s + t)[1..] == s[1..] + t;
      ReplaceCharConcat(s[1..], t, c, to);
    }
  }

  /** Undoing the slash escape gives back the key with only its tildes escaped. */
  lemma {:induction false} UnescapeSlashes(key: string)
    ensures ReplacePair(Escape(key), '~', '1', '/') == ReplaceChar(key, '~', "~0")
  {
    if key != "" {
      var c, rest := key[0], key[1..];
      assert key == [c] + rest;
      EscapeStep(c, rest);
      UnescapeSlashes(rest);
      var tail := Escape(rest);
      if c == '~' {
        assert ReplaceChar([c], '~', "~0") == "~0";
        assert Escape([c]) == "~0" by { assert "~0"[1..] == "0"; assert "0"[1..] == ""; }
        var full := "~0" + tail;
        assert full[1..] == "0" + tail && ("0" + tail)[1..] == tail;
        assert ReplacePair(full, '~', '1', '/') == "~" + ReplacePair("0" + tail, '~', '1', '/');
        assert ReplacePair("0" + tail, '~', '1', '/') == "0" + ReplacePair(tail, '~', '1', '/');
      } else if c == '/' {
        assert ReplaceChar([c], '~', "~0") == "/";
        assert Escape([c]) == "~1" by { assert "/"[1..] == ""; }
        assert ("~1" + tail)[2..] == tail;
      } else {
        assert ReplaceChar([c], '~', "~0") == [c];
        assert Escape([c]) == [c];
        assert ([c] + tail)[1..] == tail;
      }
    }
  }

  lemma {:induction false} UnescapeTildes(key: string)
    ensures ReplacePair(ReplaceChar(key, '~', "~0"), '~', '0', '~') == key
  {
    if key != "" {
      UnescapeTildes(key[1..]);
      var tail := ReplaceChar(key[1..], '~', "~0");
      if key[0] == '~' {
        assert ("~0" + tail)[2..] == tail;
      } else {
        assert ([key[0]] + tail)[1..] == tail;
      }
    }
  }

  /** Reading back an escaped key gives the key, whatever characters it holds. */
  lemma EscapeRoundTrip(key: string)
    ensures Unescape(Escape(key)) == key
  {
    UnescapeSlashes(key);
    UnescapeTildes(key);
  }

  lemma {:induction false} EscapeHasNoSlash(key: string)
    ensures '/' !in Escape(key)
  {
    if key != "" {
      assert key == [key[0]] + key[1..];
      EscapeStep(key[0], key[1..]);
      EscapeHasNoSlash(key[1..]);
      var c := key[0];
      assert ReplaceChar([c], '~', "~0") == if c == '~' then "~0" else [c];
      assert "~0"[1..] == "0" && "0"[1..] == "";
      assert '/' !in Escape([c]);
    }
  }

  lemma {:induction false} SplitSingle(part: string, sep: char)
    requires sep !in part
    ensures Split(part, sep) == [part]
  {
    if part != "" {
      SplitSingle(part[1..], sep);
      assert part == [part[0]] + part[1..];
    }
  }

  lemma {:induction false} SplitAppend(path: string, part: string, sep: char)
    requires sep !in part
    ensures Split(path + [sep] + part, sep) == Split(path, sep) + [part]
  {
    var full := path + [sep] + part;
    if path == "" {
      assert full[1..] == part;
      SplitSingle(part, sep);
    } else {
      assert full[1..] == path[1..] + [sep] + part;
      SplitAppend(path[1..], part, sep);
      var rest := Split(path[1..], sep);
      assert (rest + [part])[1..] == rest[1..] + [part];
    }
  }

  lemma UnescapeAllSnoc(parts: seq<string>, part: string)
    requires |parts| > 0
    ensures UnescapeAll((parts + [part])[1..]) == UnescapeAll(parts[1..]) + [Unescape(part)]
  {
    var tail := (parts + [part])[1..];
    assert tail == parts[1..] + [part];
    assert tail[..|tail| - 1] == parts[1..];
  }

  /** A pointer splits into an empty head and its escaped tokens. */
  lemma {:induction false} SplitPointer(tokens: seq<string>)
    ensures Split(PointerOf(tokens), '/')[0] == ""
    ensures UnescapeAll(Split(PointerOf(tokens), '/')[1..]) == tokens
    ensures tokens != [] ==> PointerOf(tokens) != "" && PointerOf(tokens)[0] == '/'
  {
    if tokens == [] {
      assert Split("", '/')[1..] == [];
    } else {
      var init, last := tokens[..|tokens| - 1], tokens[|tokens| - 1];
      var path := PointerOf(init);
      SplitPointer(init);
      EscapeHasNoSlash(last);
      assert PointerOf(tokens) == path + ['/'] + Escape(last);
      SplitAppend(path, Escape(last), '/');
      UnescapeAllSnoc(Split(path, '/'), Escape(last));
      EscapeRoundTrip(last);
      assert tokens == init + [last];
    }
  }

  /** Every token sequence, whatever characters its keys hold, survives being
      written as a pointer and read back. */
  lemma PointerRoundTrip(tokens: seq<string>)
    ensures Tokens(PointerOf(tokens)) == Some(tokens)
  {
    SplitPointer(tokens);
  }
}
