/** Parsing of the search API's `next_results` continuation string into the
    keyword arguments of the next search call (query.py:104): drop the leading
    `?`, percent-decode, cut into pieces at each `&`, cut each piece at `=` into
    a key and a value, and build a dictionary from the pairs. `unquote` is the percent-decoding of section 2.1 of RFC 3986 (a `+` is left
    alone); characters are decoded one byte at a time, see README. */
module Continuation {
  import opened Tweets

  type Kwargs = map<string, string>

  /* ---------------- percent-decoding ---------------- */

  predicate IsHexDigit(c: char) {
    '0' <= c <= '9' || 'a' <= c <= 'f' || 'A' <= c <= 'F'
  }

  function HexValue(c: char): (v: nat)
    requires IsHexDigit(c)
    ensures v < 16
  {
    if '0' <= c <= '9' then c as int - '0' as int
    else if 'a' <= c <= 'f' then c as int - 'a' as int + 10
    else c as int - 'A' as int + 10
  }

  /** The upper-case digit that encodes `n`; HexValue undoes it. */
  function HexDigit(n: nat): (c: char)
    requires n < 16
    ensures IsHexDigit(c) && HexValue(c) == n
  {
    if n < 10 then ('0' as int + n) as char else ('A' as int + n - 10) as char
  }

  /** True when `s` starts with a well-formed escape `%XY`. */
  predicate StartsWithEscape(s: string) {
    |s| >= 3 && s[0] == '%' && IsHexDigit(s[1]) && IsHexDigit(s[2])
  }

  /** `unquote`: every well-formed `%XY` becomes the character with code XY, every
      other character, including a `%` not followed by two hex digits, is kept. */
  function PercentDecode(s: string): (r: string)
    ensures |r| <= |s|
    decreases |s|
  {
    if s == [] then []
    else if StartsWithEscape(s) then
      [(HexValue(s[1]) * 16 + HexValue(s[2])) as char] + PercentDecode(s[3..])
    else
      [s[0]] + PercentDecode(s[1..])
  }

  /** A string without `%` decodes to itself. */
  lemma {:induction false} DecodeNoEscape(s: string)
    requires '%' !in s
    ensures PercentDecode(s) == s
    decreases |s|
  {
    if s != [] {
      assert forall k :: 0 <= k < |s| - 1 ==> s[1..][k] == s[k + 1];
      DecodeNoEscape(s[1..]);
      assert [s[0]] + s[1..] == s;
    }
  }

  predicate IsByteString(s: string) {
    forall i :: 0 <= i < |s| ==> s[i] as int < 256
  }

  /** Escapes every character as `%XY` (the inverse of PercentDecode). */
  function PercentEncode(s: string): (r: string)
    requires IsByteString(s)
    ensures |r| == 3 * |s|
  {
    if s == [] then []
    else ['%', HexDigit(s[0] as int / 16), HexDigit(s[0] as int % 16)] + PercentEncode(s[1..])
  }

  lemma {:induction false} DecodeEncode(s: string)
    requires IsByteString(s)
    ensures PercentDecode(PercentEncode(s)) == s
  {
    if s != [] {
      var e := PercentEncode(s);
      var rest := PercentEncode(s[1..]);
      assert e == ['%', HexDigit(s[0] as int / 16), HexDigit(s[0] as int % 16)] + rest;
      assert StartsWithEscape(e);
      assert e[3..] == rest;
      DecodeEncode(s[1..]);
      assert [s[0]] + s[1..] == s;
    }
  }

  /* ---------------- str.split(sep) and its inverse ---------------- */

  /** Python's `s.split(sep)` for a one-character separator: never empty, and the
      pieces are what lies between consecutive separators. */
  function Split(s: string, sep: char): (r: seq<string>)
    ensures |r| >= 1
    ensures forall i :: 0 <= i < |r| ==> sep !in r[i]
    decreases |s|
  {
    if s == [] then [[]]
    else
      var rest := Split(s[1..], sep);
      if s[0] == sep then [[]] + rest
      else [[s[0]] + rest[0]] + rest[1..]
  }

  /** `sep.join(parts)`. */
  function Join(parts: seq<string>, sep: char): string
  {
    if |parts| == 0 then []
    else if |parts| == 1 then parts[0]
    else parts[0] + [sep] + Join(parts[1..], sep)
  }

  lemma {:induction false} JoinSplit(s: string, sep: char)
    ensures Join(Split(s, sep), sep) == s
  {
    if s != [] {
      var rest := Split(s[1..], sep);
      JoinSplit(s[1..], sep);
      if s[0] != sep {
        var r := Split(s, sep);
        if |rest| == 1 {
          assert r == [[s[0]] + rest[0]];
        } else {
          assert r[1..] == rest[1..];
          assert Join(r, sep) == [s[0]] + rest[0] + [sep] + Join(rest[1..], sep);
        }
      }
      assert [s[0]] + s[1..] == s;
    }
  }

  lemma {:induction false} SplitJoin(parts: seq<string>, sep: char)
    requires |parts| >= 1
    requires forall i :: 0 <= i < |parts| ==> sep !in parts[i]
    ensures Split(Join(parts, sep), sep) == parts
  {
    if |parts| == 1 {
      SplitPieceFree(parts[0], sep);
    } else {
      var tail := Join(parts[1..], sep);
      SplitJoin(parts[1..], sep);
      SplitPrefix(parts[0], sep, tail);
      assert Join(parts, sep) == parts[0] + ([sep] + tail);
      assert [parts[0]] + parts[1..] == parts;
    }
  }

  lemma {:induction false} SplitPieceFree(p: string, sep: char)
    requires sep !in p
    ensures Split(p, sep) == [p]
  {
    if p != [] {
      SplitPieceFree(p[1..], sep);
      assert [p[0]] + p[1..] == p;
    }
  }

  /** Splitting `p + sep + t` with a separator-free `p` yields `p` followed by the pieces of `t`. */
  lemma {:induction false} SplitPrefix(p: string, sep: char, t: string)
    requires sep !in p
    ensures Split(p + ([sep] + t), sep) == [p] + Split(t, sep)
  {
    var s := p + ([sep] + t);
    if p == [] {
      assert s == [sep] + t;
      assert s[1..] == t;
    } else {
      assert s[1..] == p[1..] + ([sep] + t);
      SplitPrefix(p[1..], sep, t);
      assert [p[0]] + p[1..] == p;
    }
  }

  /** There is one more piece than there are separators. */
  lemma {:induction false} SplitCount(s: string, sep: char)
    ensures |Split(s, sep)| == multiset(s)[sep] + 1
  {
    if s != [] {
      SplitCount(s[1..], sep);
      assert s == [s[0]] + s[1..];
      assert multiset(s) == multiset{s[0]} + multiset(s[1..]);
    }
  }

  /* ---------------- building the keyword map ---------------- */

  /** A piece is a valid key/value pair when it splits into exactly two parts on `=`. */
  predicate IsPair(piece: string) {
    |Split(piece, '=')| == 2
  }

  function Key(piece: string): string
    requires IsPair(piece)
  {
    Split(piece, '=')[0]
  }

  function Value(piece: string): string
    requires IsPair(piece)
  {
    Split(piece, '=')[1]
  }

  predicate AllPairs(pieces: seq<string>) {
    forall i :: 0 <= i < |pieces| ==> IsPair(pieces[i])
  }

  /** The keys of the pairs, in a set. */
  function KeySet(pieces: seq<string>): set<string>
    requires AllPairs(pieces)
  {
    if pieces == [] then {} else {Key(pieces[0])} + KeySet(pieces[1..])
  }

  /** `dict(pairs)` updating `acc` left to right: None when some piece is not a
      pair (Python raises ValueError); otherwise a later duplicate key wins. */
  function AddPairs(pieces: seq<string>, acc: Kwargs): (r: Option<Kwargs>)
    ensures r.Some? <==> AllPairs(pieces)
    decreases |pieces|
  {
    if pieces == [] then Some(acc)
    else if !IsPair(pieces[0]) then None
    else
      var r := AddPairs(pieces[1..], acc[Key(pieces[0]) := Value(pieces[0])]);
      assert AllPairs(pieces[1..]) ==> AllPairs(pieces) by {
        if AllPairs(pieces[1..]) {
          forall i | 1 <= i < |pieces| ensures IsPair(pieces[i]) { assert pieces[1..][i - 1] == pieces[i]; }
        }
      }
      r
  }

  /** The map holds the keys of `acc` and of every pair, and no other. */
  lemma {:induction false} AddPairsKeys(pieces: seq<string>, acc: Kwargs)
    requires AllPairs(pieces)
    ensures AddPairs(pieces, acc).value.Keys == acc.Keys + KeySet(pieces)
    decreases |pieces|
  {
    if pieces != [] {
      AddPairsKeys(pieces[1..], acc[Key(pieces[0]) := Value(pieces[0])]);
    }
  }

  /** A key that no pair mentions keeps its value from `acc`. */
  lemma {:induction false} AddPairsKeeps(pieces: seq<string>, acc: Kwargs, k: string)
    requires AllPairs(pieces) && k in acc
    requires forall i :: 0 <= i < |pieces| ==> Key(pieces[i]) != k
    ensures k in AddPairs(pieces, acc).value && AddPairs(pieces, acc).value[k] == acc[k]
    decreases |pieces|
  {
    if pieces != [] {
      var acc' := acc[Key(pieces[0]) := Value(pieces[0])];
      forall i | 0 <= i < |pieces[1..]| ensures Key(pieces[1..][i]) != k { assert pieces[1..][i] == pieces[i + 1]; }
      AddPairsKeeps(pieces[1..], acc', k);
    }
  }

  /** The value of a key is the one of the last pair that names it. */
  lemma {:induction false} AddPairsLastWins(pieces: seq<string>, acc: Kwargs, i: nat)
    requires AllPairs(pieces) && i < |pieces|
    requires forall j :: i < j < |pieces| ==> Key(pieces[j]) != Key(pieces[i])
    ensures Key(pieces[i]) in AddPairs(pieces, acc).value
    ensures AddPairs(pieces, acc).value[Key(pieces[i])] == Value(pieces[i])
    decreases |pieces|
  {
    var acc' := acc[Key(pieces[0]) := Value(pieces[0])];
    if i == 0 {
      forall j | 0 <= j < |pieces[1..]| ensures Key(pieces[1..][j]) != Key(pieces[0]) { assert pieces[1..][j] == pieces[j + 1]; }
      AddPairsKeeps(pieces[1..], acc', Key(pieces[0]));
    } else {
      forall j | i - 1 < j < |pieces[1..]| ensures Key(pieces[1..][j]) != Key(pieces[1..][i - 1]) { assert pieces[1..][j] == pieces[j + 1]; }
      AddPairsLastWins(pieces[1..], acc', i - 1);
    }
  }

  /** `next_results[1:]`: drops the leading `?` (an empty string stays empty). */
  function Tail(s: string): (r: string)
    ensures s != [] ==> [s[0]] + r == s
  {
    if s == [] then [] else s[1..]
  }

  /** The `&`-separated pieces of the decoded query string. */
  function Pieces(nextResults: string): (r: seq<string>)
    ensures |r| >= 1
  {
    Split(PercentDecode(Tail(nextResults)), '&')
  }

  /** The keyword map of the next search call, or None when a piece does not have
      exactly one `=` (the parse raises and the caller reports no more pages). */
  function ParseKwargs(nextResults: string): (r: Option<Kwargs>)
  {
    AddPairs(Pieces(nextResults), map[])
  }

  /** The parse succeeds exactly when every piece holds exactly one `=`, and a
      successful parse is never empty (so the fall-through after the
      `len(...) > 0` test in the caller is unreachable). */
  lemma ParseKwargsOutcome(nextResults: string)
    ensures var pieces := Pieces(nextResults);
            ParseKwargs(nextResults).Some? <==>
              forall i :: 0 <= i < |pieces| ==> multiset(pieces[i])['='] == 1
    ensures ParseKwargs(nextResults).Some? ==> |ParseKwargs(nextResults).value| > 0
  {
    var pieces := Pieces(nextResults);
    forall i | 0 <= i < |pieces| ensures IsPair(pieces[i]) <==> multiset(pieces[i])['='] == 1 {
      SplitCount(pieces[i], '=');
    }
    var r := ParseKwargs(nextResults);
    if r.Some? {
      AddPairsKeys(pieces, map[]);
      assert Key(pieces[0]) in r.value.Keys;
    }
  }

  /** A successful parse maps exactly the keys of the pieces, each to the value
      of the last piece that names it. */
  lemma ParseKwargsContents(nextResults: string, i: nat)
    requires ParseKwargs(nextResults).Some?
    requires i < |Pieces(nextResults)|
    ensures AllPairs(Pieces(nextResults))
    ensures ParseKwargs(nextResults).value.Keys == KeySet(Pieces(nextResults))
    ensures var pieces := Pieces(nextResults);
            (forall j :: i < j < |pieces| ==> Key(pieces[j]) != Key(pieces[i])) ==>
              Key(pieces[i]) in ParseKwargs(nextResults).value &&
              ParseKwargs(nextResults).value[Key(pieces[i])] == Value(pieces[i])
  {
    var pieces := Pieces(nextResults);
    AddPairsKeys(pieces, map[]);
    if forall j :: i < j < |pieces| ==> Key(pieces[j]) != Key(pieces[i]) {
      AddPairsLastWins(pieces, map[], i);
    }
  }

  /** The bare string `?` decodes to one empty piece, which is not a pair. */
  lemma BareQuestionMarkFails()
    ensures ParseKwargs("?") == None
  {
    assert Pieces("?") == [[]];
  }

  /** `%3D` decodes to `=`, so the decoded query string holds two of them. */
  lemma EncodedSeparatorDecodes()
    ensures PercentDecode("q=a%3Db") == "q=a=b"
  {
    assert PercentDecode("%3Db") == "=b" by {
      assert PercentDecode("b") == "b";
      assert StartsWithEscape("%3Db");
      assert HexValue('3') * 16 + HexValue('D') == '=' as int;
    }
    assert PercentDecode("a%3Db") == "a=b" by {
      assert !StartsWithEscape("a%3Db") && "a%3Db"[1..] == "%3Db";
    }
    assert PercentDecode("=a%3Db") == "=a=b" by {
      assert !StartsWithEscape("=a%3Db") && "=a%3Db"[1..] == "a%3Db";
    }
    assert !StartsWithEscape("q=a%3Db") && "q=a%3Db"[1..] == "=a%3Db";
  }

  /** Percent-decoding runs before the split, so an encoded `=` inside a value
      (`%3D`) breaks the pair and the whole parse fails. */
  lemma EncodedSeparatorFails()
    ensures ParseKwargs("?q=a%3Db") == None
  {
    assert Pieces("?q=a%3Db") == ["q=a=b"] by {
      EncodedSeparatorDecodes();
      assert Tail("?q=a%3Db") == "q=a%3Db";
      SplitPieceFree("q=a=b", '&');
    }
    SplitCount("q=a=b", '=');
    assert multiset("q=a=b")['='] == 2;
  }

  /* ---------------- the documented example ---------------- */

  /** A first character other than `%` is copied. */
  lemma DecodeHead(s: string)
    requires s != [] && s[0] != '%'
    ensures PercentDecode(s) == [s[0]] + PercentDecode(s[1..])
  {
    assert !StartsWithEscape(s);
  }

  /** Characters before the first `%` are copied through unchanged. */
  lemma {:induction false} DecodePlainPrefix(p: string, t: string)
    requires '%' !in p
    ensures PercentDecode(p + t) == p + PercentDecode(t)
    decreases |p|
  {
    if p == [] {
      assert p + t == t;
    } else {
      var p' := p[1..];
      calc {
        PercentDecode(p + t);
        { DecodeHead(p + t); assert (p + t)[1..] == p' + t; }
        [p[0]] + PercentDecode(p' + t);
        { assert forall k :: 0 <= k < |p'| ==> p'[k] == p[k + 1];
          DecodePlainPrefix(p', t); }
        [p[0]] + (p' + PercentDecode(t));
        { assert [p[0]] + p' == p; }
        p + PercentDecode(t);
      }
    }
  }

  /** A piece `k=v` whose key and value hold no `=` is a pair with that key and
      that value. */
  lemma PairOf(k: string, v: string)
    requires '=' !in k && '=' !in v
    ensures IsPair(k + "=" + v) && Key(k + "=" + v) == k && Value(k + "=" + v) == v
  {
    assert Join([k, v], '=') == k + "=" + v;
    SplitJoin([k, v], '=');
  }

  /** Neither a separator nor an escape. */
  predicate Plain(s: string) {
    '%' !in s && '&' !in s && '=' !in s
  }

  /** The raw pieces of the documented example's shape: four pairs, the second
      value starting with the escape `%23`. */
  function RawFour(k1: string, v1: string, k2: string, w: string,
                   k3: string, v3: string, k4: string, v4: string): seq<string>
  {
    [k1 + "=" + v1, k2 + "=" + "%23" + w, k3 + "=" + v3, k4 + "=" + v4]
  }

  /** Four pieces joined with `&`, nested to the right. */
  lemma JoinFour(a: string, b: string, c: string, d: string)
    ensures Join([a, b, c, d], '&') == a + "&" + (b + "&" + (c + "&" + d))
  {
    var parts := [a, b, c, d];
    assert Join(parts[3..], '&') == d;
    assert Join(parts[2..], '&') == c + "&" + d;
    assert parts[1..] == [b, c, d] && parts[1..][1..] == parts[2..];
  }

  /** Decoding the joined raw pieces turns `%23` into `#` and copies the rest. */
  lemma DecodeFour(k1: string, v1: string, k2: string, w: string,
                   k3: string, v3: string, k4: string, v4: string)
    requires Plain(k1) && Plain(v1) && Plain(k2) && Plain(w) && Plain(k3) && Plain(v3) && Plain(k4) && Plain(v4)
    ensures PercentDecode(Join(RawFour(k1, v1, k2, w, k3, v3, k4, v4), '&'))
            == Join([k1 + "=" + v1, k2 + "=" + ("#" + w), k3 + "=" + v3, k4 + "=" + v4], '&')
  {
    var r1, r2, r3, r4 := k1 + "=" + v1, k2 + "=" + "%23" + w, k3 + "=" + v3, k4 + "=" + v4;
    var d2 := k2 + "=" + ("#" + w);
    JoinFour(r1, r2, r3, r4);
    JoinFour(r1, d2, r3, r4);
    var j3 := r3 + "&" + r4;
    var rest := w + "&" + j3;
    assert '%' !in rest;
    assert r2 + "&" + j3 == (k2 + "=") + ("%23" + rest);
    EscapeHash(rest);
    DecodePlainPrefix(k2 + "=", "%23" + rest);
    assert PercentDecode(r2 + "&" + j3) == d2 + "&" + j3;
    DecodePlainPrefix(r1 + "&", r2 + "&" + j3);
  }

  /** `%23` decodes to `#`. */
  lemma EscapeHash(rest: string)
    requires '%' !in rest
    ensures PercentDecode("%23" + rest) == "#" + rest
  {
    var e := "%23" + rest;
    assert StartsWithEscape(e) && e[3..] == rest;
    assert HexValue('2') * 16 + HexValue('3') == '#' as int;
    DecodeNoEscape(rest);
  }

  /** The pieces of the documented example's shape are its four decoded pairs. */
  lemma PiecesFour(k1: string, v1: string, k2: string, w: string,
                   k3: string, v3: string, k4: string, v4: string)
    requires Plain(k1) && Plain(v1) && Plain(k2) && Plain(w) && Plain(k3) && Plain(v3) && Plain(k4) && Plain(v4)
    ensures Pieces("?" + Join(RawFour(k1, v1, k2, w, k3, v3, k4, v4), '&'))
            == [k1 + "=" + v1, k2 + "=" + ("#" + w), k3 + "=" + v3, k4 + "=" + v4]
  {
    var joined := Join(RawFour(k1, v1, k2, w, k3, v3, k4, v4), '&');
    var decoded := [k1 + "=" + v1, k2 + "=" + ("#" + w), k3 + "=" + v3, k4 + "=" + v4];
    DecodeFour(k1, v1, k2, w, k3, v3, k4, v4);
    assert Tail("?" + joined) == joined;
    assert forall i :: 0 <= i < |decoded| ==> '&' !in decoded[i] by {
      assert '&' !in decoded[0] && '&' !in decoded[1] && '&' !in decoded[2] && '&' !in decoded[3];
    }
    SplitJoin(decoded, '&');
  }

  /** The documented example's shape parses to its four pairs. */
  lemma FourPairs(k1: string, v1: string, k2: string, w: string,
                  k3: string, v3: string, k4: string, v4: string)
    requires Plain(k1) && Plain(v1) && Plain(k2) && Plain(w) && Plain(k3) && Plain(v3) && Plain(k4) && Plain(v4)
    ensures ParseKwargs("?" + Join(RawFour(k1, v1, k2, w, k3, v3, k4, v4), '&'))
            == Some(map[k1 := v1, k2 := "#" + w, k3 := v3, k4 := v4])
  {
    PiecesFour(k1, v1, k2, w, k3, v3, k4, v4);
    var decoded := [k1 + "=" + v1, k2 + "=" + ("#" + w), k3 + "=" + v3, k4 + "=" + v4];
    PairOf(k1, v1);
    PairOf(k2, "#" + w);
    PairOf(k3, v3);
    PairOf(k4, v4);
    var m1 := map[][k1 := v1];
    var m2 := m1[k2 := "#" + w];
    var m3 := m2[k3 := v3];
    assert AddPairs(decoded, map[]) == AddPairs(decoded[1..], m1);
    assert AddPairs(decoded[1..], m1) == AddPairs(decoded[2..], m2) by { assert decoded[1..][1..] == decoded[2..]; }
    assert AddPairs(decoded[2..], m2) == AddPairs(decoded[3..], m3) by { assert decoded[2..][1..] == decoded[3..]; }
    assert AddPairs(decoded[3..], m3) == Some(m3[k4 := v4]) by { assert decoded[3..][1..] == []; }
  }

  /** No key or value of the documented example holds a separator or a `%`. */
  lemma ExamplePlain()
    ensures Plain("max_id") && Plain("1089616517329809407") && Plain("q") && Plain("MothersDay")
    ensures Plain("count") && Plain("100") && Plain("include_entities") && Plain("1")
  {
    assert Plain("1089616517329809407") by {
      assert forall k :: 0 <= k < 19 ==> '0' <= "1089616517329809407"[k] <= '9';
    }
  }

  /** The example in the source comment,
      `?max_id=1089616517329809407&q=%23MothersDay&count=100&include_entities=1`,
      parses to its four keyword arguments with `%23` decoded to `#`. */
  lemma ExampleParse()
    ensures ParseKwargs("?" + Join(RawFour("max_id", "1089616517329809407", "q", "MothersDay",
                                           "count", "100", "include_entities", "1"), '&'))
            == Some(map["max_id" := "1089616517329809407", "q" := "#MothersDay",
                        "count" := "100", "include_entities" := "1"])
  {
    ExamplePlain();
    FourPairs("max_id", "1089616517329809407", "q", "MothersDay", "count", "100", "include_entities", "1");
    assert "#" + "MothersDay" == "#MothersDay";
  }
}
