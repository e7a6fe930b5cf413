/** Summary statistics over the pages a file-mode search collected: four
    flattened lists (texts, hashtags, mentioned screen names, words) and, for the
    last three, the rows of its frequency table: the second to tenth most
    common items with their counts (statistics.py:73-74). */
module Statistics {
  import opened Tweets
  import Ranking

  /* ---------------- flattening ---------------- */

  /** Every status of every page, page by page and in page order. */
  function AllStatuses(pages: seq<Page>): (r: seq<Status>)
    ensures |r| == StatusCount(pages)
  {
    if pages == [] then [] else pages[0].statuses + AllStatuses(pages[1..])
  }

  /** The sum of the per-page status counts. */
  function StatusCount(pages: seq<Page>): nat
  {
    if pages == [] then 0 else |pages[0].statuses| + StatusCount(pages[1..])
  }

  /** The items `f` gives for each status, one status after the other. */
  function FromStatuses<T>(statuses: seq<Status>, f: Status -> seq<T>): seq<T>
  {
    if statuses == [] then [] else f(statuses[0]) + FromStatuses(statuses[1..], f)
  }

  /** The items `f` gives for each status of each page, in page order: the
      shape of all four nested comprehensions (statistics.py:33-65). */
  function Gather<T>(pages: seq<Page>, f: Status -> seq<T>): seq<T>
  {
    if pages == [] then [] else FromStatuses(pages[0].statuses, f) + Gather(pages[1..], f)
  }

  lemma {:induction false} FromStatusesAppend<T>(a: seq<Status>, b: seq<Status>, f: Status -> seq<T>)
    ensures FromStatuses(a + b, f) == FromStatuses(a, f) + FromStatuses(b, f)
  {
    if a == [] {
      assert a + b == b;
    } else {
      assert (a + b)[1..] == a[1..] + b;
      FromStatusesAppend(a[1..], b, f);
    }
  }

  /** The nested comprehension is the per-status one over the flattened statuses. */
  lemma {:induction false} GatherFlattens<T>(pages: seq<Page>, f: Status -> seq<T>)
    ensures Gather(pages, f) == FromStatuses(AllStatuses(pages), f)
  {
    if pages != [] {
      GatherFlattens(pages[1..], f);
      FromStatusesAppend(pages[0].statuses, AllStatuses(pages[1..]), f);
    }
  }

  /** An item is gathered exactly when some status contributes it. */
  lemma {:induction false} FromStatusesMember<T>(statuses: seq<Status>, f: Status -> seq<T>, x: T)
    ensures x in FromStatuses(statuses, f) <==> exists i :: 0 <= i < |statuses| && x in f(statuses[i])
  {
    if statuses != [] {
      FromStatusesMember(statuses[1..], f, x);
      if x in FromStatuses(statuses[1..], f) {
        var i :| 0 <= i < |statuses[1..]| && x in f(statuses[1..][i]);
        assert statuses[i + 1] == statuses[1..][i];
      }
      if exists i :: 0 <= i < |statuses| && x in f(statuses[i]) {
        var i :| 0 <= i < |statuses| && x in f(statuses[i]);
        if i > 0 { assert statuses[1..][i - 1] == statuses[i]; }
      }
    }
  }

  /** The number of items the statuses contribute. */
  function Contributed<T>(statuses: seq<Status>, f: Status -> seq<T>): nat
  {
    if statuses == [] then 0 else |f(statuses[0])| + Contributed(statuses[1..], f)
  }

  lemma {:induction false} FromStatusesLength<T>(statuses: seq<Status>, f: Status -> seq<T>)
    ensures |FromStatuses(statuses, f)| == Contributed(statuses, f)
  {
    if statuses != [] {
      FromStatusesLength(statuses[1..], f);
    }
  }

  /* ---------------- the four lists ---------------- */

  function TextOf(s: Status): seq<string> { [s.text] }

  function HashtagTexts(s: Status): seq<string> {
    seq(|s.hashtags|, j requires 0 <= j < |s.hashtags| => s.hashtags[j].text)
  }

  /** `user_mention.get('screen_name')`: None for a mention without one. */
  function MentionNames(s: Status): seq<Option<string>> {
    seq(|s.mentions|, j requires 0 <= j < |s.mentions| => s.mentions[j].screenName)
  }

  function StatusWords(s: Status): seq<string> { SplitWords(s.text) }

  /** `get_texts`. */
  function Texts(pages: seq<Page>): seq<string> { Gather(pages, TextOf) }

  /** `get_hashtags`. */
  function Hashtags(pages: seq<Page>): seq<string> { Gather(pages, HashtagTexts) }

  /** `get_screen_names`. */
  function ScreenNames(pages: seq<Page>): seq<Option<string>> { Gather(pages, MentionNames) }

  /** `get_words`. */
  function Words(pages: seq<Page>): seq<string> { Gather(pages, StatusWords) }

  /** One text per status, in page order then status order; as many as the
      pages hold statuses. */
  lemma TextsOnePerStatus(pages: seq<Page>)
    ensures |Texts(pages)| == |AllStatuses(pages)| == StatusCount(pages)
    ensures forall i :: 0 <= i < |Texts(pages)| ==> Texts(pages)[i] == AllStatuses(pages)[i].text
  {
    GatherFlattens(pages, TextOf);
    TextsOfStatuses(AllStatuses(pages));
  }

  lemma {:induction false} TextsOfStatuses(statuses: seq<Status>)
    ensures |FromStatuses(statuses, TextOf)| == |statuses|
    ensures forall i :: 0 <= i < |statuses| ==> FromStatuses(statuses, TextOf)[i] == statuses[i].text
  {
    if statuses != [] {
      TextsOfStatuses(statuses[1..]);
      var r := FromStatuses(statuses, TextOf);
      forall i | 0 < i < |statuses| ensures r[i] == statuses[i].text {
        assert r[i] == FromStatuses(statuses[1..], TextOf)[i - 1];
      }
    }
  }

  /** The hashtags are the concatenation of every status's hashtag texts, in
      status order; a text is present exactly when some status carries it. */
  lemma HashtagsOfStatuses(pages: seq<Page>, x: string)
    ensures Hashtags(pages) == FromStatuses(AllStatuses(pages), HashtagTexts)
    ensures x in Hashtags(pages) <==>
              exists i, j :: 0 <= i < |AllStatuses(pages)| && 0 <= j < |AllStatuses(pages)[i].hashtags|
                             && AllStatuses(pages)[i].hashtags[j].text == x
  {
    var all := AllStatuses(pages);
    GatherFlattens(pages, HashtagTexts);
    FromStatusesMember(all, HashtagTexts, x);
    if x in Hashtags(pages) {
      var i :| 0 <= i < |all| && x in HashtagTexts(all[i]);
      var j :| 0 <= j < |HashtagTexts(all[i])| && HashtagTexts(all[i])[j] == x;
      assert all[i].hashtags[j].text == x;
    }
    if exists i, j :: 0 <= i < |all| && 0 <= j < |all[i].hashtags| && all[i].hashtags[j].text == x {
      var i, j :| 0 <= i < |all| && 0 <= j < |all[i].hashtags| && all[i].hashtags[j].text == x;
      assert HashtagTexts(all[i])[j] == x;
    }
  }

  /** The number of user mentions across the statuses. */
  function MentionCount(statuses: seq<Status>): nat
  {
    if statuses == [] then 0 else |statuses[0].mentions| + MentionCount(statuses[1..])
  }

  /** One entry per mention, in order, and None is present exactly when some
      mention has no screen name (the lookup does not fail). */
  lemma ScreenNamesOnePerMention(pages: seq<Page>)
    ensures ScreenNames(pages) == FromStatuses(AllStatuses(pages), MentionNames)
    ensures |ScreenNames(pages)| == MentionCount(AllStatuses(pages))
    ensures None in ScreenNames(pages) <==>
              exists i, j :: 0 <= i < |AllStatuses(pages)| && 0 <= j < |AllStatuses(pages)[i].mentions|
                             && AllStatuses(pages)[i].mentions[j].screenName.None?
  {
    var all := AllStatuses(pages);
    GatherFlattens(pages, MentionNames);
    FromStatusesLength(all, MentionNames);
    ContributedMentions(all);
    FromStatusesMember(all, MentionNames, None);
    if None in ScreenNames(pages) {
      var i :| 0 <= i < |all| && None in MentionNames(all[i]);
      var j :| 0 <= j < |MentionNames(all[i])| && MentionNames(all[i])[j] == None;
      assert all[i].mentions[j].screenName.None?;
    }
    if exists i, j :: 0 <= i < |all| && 0 <= j < |all[i].mentions| && all[i].mentions[j].screenName.None? {
      var i, j :| 0 <= i < |all| && 0 <= j < |all[i].mentions| && all[i].mentions[j].screenName.None?;
      assert MentionNames(all[i])[j] == None;
    }
  }

  lemma {:induction false} ContributedMentions(statuses: seq<Status>)
    ensures Contributed(statuses, MentionNames) == MentionCount(statuses)
  {
    if statuses != [] {
      ContributedMentions(statuses[1..]);
    }
  }

  /** The number of words across the statuses' texts. */
  function WordCount(statuses: seq<Status>): nat
  {
    if statuses == [] then 0 else |SplitWords(statuses[0].text)| + WordCount(statuses[1..])
  }

  /** The words are the split texts, in order: none is empty or holds
      whitespace, and there are as many as the texts split into. */
  lemma WordsAreTokens(pages: seq<Page>)
    ensures Words(pages) == FromStatuses(AllStatuses(pages), StatusWords)
    ensures |Words(pages)| == WordCount(AllStatuses(pages))
    ensures forall w :: w in Words(pages) ==> w != [] && NoSpace(w)
  {
    var all := AllStatuses(pages);
    GatherFlattens(pages, StatusWords);
    FromStatusesLength(all, StatusWords);
    ContributedWords(all);
    forall w | w in Words(pages) ensures w != [] && NoSpace(w) {
      FromStatusesMember(all, StatusWords, w);
      var i :| 0 <= i < |all| && w in StatusWords(all[i]);
      SplitWordsTokens(all[i].text);
    }
  }

  lemma {:induction false} ContributedWords(statuses: seq<Status>)
    ensures Contributed(statuses, StatusWords) == WordCount(statuses)
  {
    if statuses != [] {
      ContributedWords(statuses[1..]);
    }
  }

  /* ---------------- str.split() ---------------- */

  /** The ASCII characters `str.isspace()` accepts: space, `\t` to `\r`, and the
      separators 0x1C to 0x1F. */
  predicate IsSpace(c: char) {
    c == ' ' || '\t' <= c <= '\r' || '\U{1C}' <= c <= '\U{1F}'
  }

  predicate NoSpace(w: string) {
    forall k :: 0 <= k < |w| ==> !IsSpace(w[k])
  }

  /** The words of `word + s`, where `word` is the part of a word already read. */
  function SplitFrom(s: string, word: string): seq<string>
    decreases |s|
  {
    if s == [] then (if word == [] then [] else [word])
    else if IsSpace(s[0]) then (if word == [] then [] else [word]) + SplitFrom(s[1..], [])
    else SplitFrom(s[1..], word + [s[0]])
  }

  /** `text.split()`: the maximal runs of non-whitespace characters. */
  function SplitWords(s: string): seq<string> { SplitFrom(s, []) }

  /** `''.join(words)`. */
  function Concat(words: seq<string>): string
  {
    if words == [] then [] else words[0] + Concat(words[1..])
  }

  /** The text with its whitespace removed. */
  function RemoveSpaces(s: string): (r: string)
    ensures NoSpace(r)
  {
    if s == [] then [] else (if IsSpace(s[0]) then [] else [s[0]]) + RemoveSpaces(s[1..])
  }

  lemma {:induction false} SplitFromTokens(s: string, word: string)
    requires NoSpace(word)
    ensures forall w :: w in SplitFrom(s, word) ==> w != [] && NoSpace(w)
    ensures Concat(SplitFrom(s, word)) == word + RemoveSpaces(s)
    decreases |s|
  {
    if s == [] {
      assert word + [] == word;
      if word != [] { assert Concat([word]) == word + Concat([]); }
    } else if IsSpace(s[0]) {
      SplitFromTokens(s[1..], []);
      var head: seq<string> := if word == [] then [] else [word];
      var rest := SplitFrom(s[1..], []);
      ConcatAppend(head, rest);
      if word != [] { assert Concat([word]) == word + Concat([]); }
      assert Concat(head) == word;
      assert RemoveSpaces(s) == RemoveSpaces(s[1..]);
      assert [] + RemoveSpaces(s[1..]) == RemoveSpaces(s[1..]);
    } else {
      var word' := word + [s[0]];
      assert NoSpace(word') by {
        forall k | 0 <= k < |word'| ensures !IsSpace(word'[k]) { if k < |word| { assert word'[k] == word[k]; } }
      }
      SplitFromTokens(s[1..], word');
      assert RemoveSpaces(s) == [s[0]] + RemoveSpaces(s[1..]);
      assert word' + RemoveSpaces(s[1..]) == word + RemoveSpaces(s);
    }
  }

  lemma {:induction false} ConcatAppend(a: seq<string>, b: seq<string>)
    ensures Concat(a + b) == Concat(a) + Concat(b)
  {
    if a == [] {
      assert a + b == b;
    } else {
      assert (a + b)[1..] == a[1..] + b;
      ConcatAppend(a[1..], b);
    }
  }

  /** No word is empty or holds whitespace, and together the words spell the
      text without its whitespace. */
  lemma SplitWordsTokens(s: string)
    ensures forall w :: w in SplitWords(s) ==> w != [] && NoSpace(w)
    ensures Concat(SplitWords(s)) == RemoveSpaces(s)
  {
    SplitFromTokens(s, []);
    assert [] + RemoveSpaces(s) == RemoveSpaces(s);
  }

  /** Whitespace only. */
  predicate AllSpace(g: string) {
    forall k :: 0 <= k < |g| ==> IsSpace(g[k])
  }

  /** Words and the whitespace around them: `gaps[0] + ws[0] + gaps[1] + ...
      + ws[n-1] + gaps[n]`. */
  function Weave(gaps: seq<string>, ws: seq<string>): string
    requires |gaps| == |ws| + 1
  {
    if ws == [] then gaps[0] else gaps[0] + ws[0] + Weave(gaps[1..], ws[1..])
  }

  /** Gaps that may hold a split text: whitespace only, and non-empty between
      two words. */
  predicate Separating(gaps: seq<string>) {
    && (forall i :: 0 <= i < |gaps| ==> AllSpace(gaps[i]))
    && (forall i :: 0 < i < |gaps| - 1 ==> gaps[i] != [])
  }

  /** Reading characters that are not whitespace extends the current word. */
  lemma {:induction false} SplitFromPlain(p: string, s: string, word: string)
    requires NoSpace(p)
    ensures SplitFrom(p + s, word) == SplitFrom(s, word + p)
    decreases |p|
  {
    if p == [] {
      assert p + s == s && word + p == word;
    } else {
      assert (p + s)[1..] == p[1..] + s;
      assert forall k :: 0 <= k < |p| - 1 ==> p[1..][k] == p[k + 1];
      SplitFromPlain(p[1..], s, word + [p[0]]);
      assert word + [p[0]] + p[1..] == word + p;
    }
  }

  /** Reading whitespace ends the current word, if any. */
  lemma {:induction false} SplitFromSpaces(g: string, s: string, word: string)
    requires AllSpace(g) && g != []
    ensures SplitFrom(g + s, word) == (if word == [] then [] else [word]) + SplitFrom(s, [])
    decreases |g|
  {
    assert (g + s)[1..] == g[1..] + s;
    if |g| > 1 {
      assert forall k :: 0 <= k < |g| - 1 ==> g[1..][k] == g[k + 1];
      SplitFromSpaces(g[1..], s, []);
    } else {
      assert g[1..] + s == s;
    }
  }

  /** At a word boundary (the end of the text, or whitespace) the word read so
      far is complete. */
  lemma EndWord(t: string, word: string)
    requires t == [] || IsSpace(t[0])
    ensures SplitFrom(t, word) == (if word == [] then [] else [word]) + SplitFrom(t, [])
  {
  }

  /** Woven text that starts with a gap starts at a word boundary. */
  lemma WeaveStart(gaps: seq<string>, ws: seq<string>)
    requires |gaps| == |ws| + 1 && AllSpace(gaps[0])
    requires ws != [] ==> gaps[0] != []
    ensures Weave(gaps, ws) == [] || IsSpace(Weave(gaps, ws)[0])
  {
    if ws != [] {
      assert Weave(gaps, ws)[0] == gaps[0][0];
    }
  }

  lemma SeparatingTail(gaps: seq<string>)
    requires |gaps| > 1 && Separating(gaps)
    ensures Separating(gaps[1..])
  {
    assert forall i :: 0 <= i < |gaps| - 1 ==> gaps[1..][i] == gaps[i + 1];
  }

  /** Splitting text woven from words and separating whitespace gives back the
      words: the words of `text.split()` are the maximal runs without
      whitespace, whatever whitespace separates them. */
  lemma {:induction false} SplitWeave(gaps: seq<string>, ws: seq<string>)
    requires |gaps| == |ws| + 1 && Separating(gaps)
    requires forall i :: 0 <= i < |ws| ==> ws[i] != [] && NoSpace(ws[i])
    ensures SplitWords(Weave(gaps, ws)) == ws
    decreases |ws|
  {
    var g := gaps[0];
    if ws == [] {
      if g != [] {
        SplitFromSpaces(g, [], []);
        assert g + [] == g;
      }
    } else {
      var w := ws[0];
      var rest := Weave(gaps[1..], ws[1..]);
      assert Weave(gaps, ws) == g + (w + rest);
      if g != [] {
        SplitFromSpaces(g, w + rest, []);
      } else {
        assert g + (w + rest) == w + rest;
      }
      SplitFromPlain(w, rest, []);
      assert [] + w == w;
      SeparatingTail(gaps);
      WeaveStart(gaps[1..], ws[1..]);
      EndWord(rest, w);
      assert forall i :: 0 <= i < |ws| - 1 ==> ws[1..][i] == ws[i + 1];
      SplitWeave(gaps[1..], ws[1..]);
    }
  }

  /** `SplitFrom` started inside a word: the text read so far with the rest of
      `s` is the words woven with separating whitespace, and no whitespace
      comes before the first word. */
  lemma {:induction false} SplitFromGaps(s: string, word: string) returns (gaps: seq<string>)
    requires NoSpace(word)
    ensures |gaps| == |SplitFrom(s, word)| + 1 && Separating(gaps)
    ensures word != [] ==> gaps[0] == []
    ensures Weave(gaps, SplitFrom(s, word)) == word + s
    decreases |s|
  {
    if s == [] {
      gaps := if word == [] then [[]] else [[], []];
      assert word + s == word;
      if word != [] { assert Weave(gaps, [word]) == [] + word + []; }
    } else if IsSpace(s[0]) {
      var g' := SplitFromGaps(s[1..], []);
      var ws := SplitFrom(s[1..], []);
      assert [] + s[1..] == s[1..];
      var inner := [[s[0]] + g'[0]] + g'[1..];
      PrependGap([s[0]], g', ws);
      SeparatingSpace(s[0], g');
      assert [s[0]] + s[1..] == s;
      assert SplitFrom(s, word) == (if word == [] then [] else [word]) + ws;
      if word == [] {
        gaps := inner;
        assert [] + ws == ws && [] + s == s;
      } else {
        gaps := [[]] + inner;
        PrependWord(word, inner, ws);
        SeparatingCons(inner);
      }
    } else {
      var word' := word + [s[0]];
      assert NoSpace(word') by {
        forall k | 0 <= k < |word'| ensures !IsSpace(word'[k]) { if k < |word| { assert word'[k] == word[k]; } }
      }
      gaps := SplitFromGaps(s[1..], word');
      assert word' + s[1..] == word + s;
    }
  }

  /** Text read before the first gap comes first in the woven text. */
  lemma PrependGap(p: string, gaps: seq<string>, ws: seq<string>)
    requires |gaps| == |ws| + 1
    ensures Weave([p + gaps[0]] + gaps[1..], ws) == p + Weave(gaps, ws)
  {
    var g := [p + gaps[0]] + gaps[1..];
    assert g[1..] == gaps[1..];
    if ws != [] {
      var t := Weave(gaps[1..], ws[1..]);
      assert g[0] + ws[0] + t == p + (gaps[0] + ws[0] + t);
    }
  }

  /** Whitespace read before the first gap keeps the gaps separating. */
  lemma SeparatingSpace(c: char, gaps: seq<string>)
    requires IsSpace(c) && Separating(gaps) && gaps != []
    ensures Separating([[c] + gaps[0]] + gaps[1..])
  {
    var first := [c] + gaps[0];
    var g := [first] + gaps[1..];
    assert AllSpace(first) by {
      forall k | 0 <= k < |first| ensures IsSpace(first[k]) {
        if k > 0 { assert first[k] == gaps[0][k - 1]; }
      }
    }
    assert forall i :: 0 < i < |g| ==> g[i] == gaps[i];
  }

  /** A word read before text that starts at a word boundary comes first. */
  lemma PrependWord(word: string, gaps: seq<string>, ws: seq<string>)
    requires |gaps| == |ws| + 1
    ensures Weave([[]] + gaps, [word] + ws) == word + Weave(gaps, ws)
  {
    var g := [[]] + gaps;
    var v := [word] + ws;
    assert g[1..] == gaps && v[1..] == ws;
    assert g[0] + v[0] == word;
  }

  /** An empty gap in front keeps the gaps separating when the old first gap
      now lies between two words. */
  lemma SeparatingCons(gaps: seq<string>)
    requires Separating(gaps) && gaps != [] && gaps[0] != []
    ensures Separating([[]] + gaps)
  {
    var g := [[]] + gaps;
    assert forall i :: 0 < i < |g| ==> g[i] == gaps[i - 1];
  }

  /** Every text is its split words woven with separating whitespace. */
  lemma SplitWordsGaps(s: string) returns (gaps: seq<string>)
    ensures |gaps| == |SplitWords(s)| + 1 && Separating(gaps)
    ensures Weave(gaps, SplitWords(s)) == s
  {
    gaps := SplitFromGaps(s, []);
    assert [] + s == s;
  }

  /** `' '.join(words)`. */
  function JoinWords(ws: seq<string>): string
  {
    if ws == [] then [] else if |ws| == 1 then ws[0] else ws[0] + " " + JoinWords(ws[1..])
  }

  /** Splitting words joined with single spaces gives back the words. */
  lemma {:induction false} SplitJoinWords(ws: seq<string>)
    requires forall i :: 0 <= i < |ws| ==> ws[i] != [] && NoSpace(ws[i])
    ensures SplitWords(JoinWords(ws)) == ws
  {
    if |ws| == 1 {
      SplitFromPlain(ws[0], [], []);
      assert ws[0] + [] == ws[0] && [] + ws[0] == ws[0];
    } else if |ws| > 1 {
      var w := ws[0];
      var rest := JoinWords(ws[1..]);
      assert JoinWords(ws) == w + (" " + rest);
      SplitFromPlain(w, " " + rest, []);
      assert [] + w == w;
      SplitFromSpaces(" ", rest, w);
      assert forall i :: 0 <= i < |ws| - 1 ==> ws[1..][i] == ws[i + 1];
      SplitJoinWords(ws[1..]);
    }
  }

  /* ---------------- Counter and most_common ---------------- */

  /** Counting one more `x`: an existing entry is incremented in place, a new
      item is appended (a Counter keeps its items in first-seen order). */
  function Bump<T(==)>(c: seq<(T, int)>, x: T): (r: seq<(T, int)>)
  {
    if c == [] then [(x, 1)]
    else if c[0].0 == x then [(x, c[0].1 + 1)] + c[1..]
    else [c[0]] + Bump(c[1..], x)
  }

  /** `Counter(v)`, as its items in first-seen order with their counts. */
  function Tally<T(==)>(v: seq<T>): seq<(T, int)>
    decreases |v|
  {
    if v == [] then [] else Bump(Tally(v[..|v| - 1]), v[|v| - 1])
  }

  predicate DistinctKeys<T(==)>(c: seq<(T, int)>) {
    forall i, j :: 0 <= i < j < |c| ==> c[i].0 != c[j].0
  }

  /** Each item of `v` has exactly one entry, holding its number of occurrences. */
  predicate CountsOf<T(==)>(c: seq<(T, int)>, v: seq<T>) {
    && DistinctKeys(c)
    && (forall i :: 0 <= i < |c| ==> c[i].0 in v && c[i].1 == multiset(v)[c[i].0])
    && (forall x :: x in v ==> exists i :: 0 <= i < |c| && c[i].0 == x)
  }

  /** `Bump` appends an item it has not seen. */
  lemma {:induction false} BumpAbsent<T>(c: seq<(T, int)>, x: T)
    requires forall i :: 0 <= i < |c| ==> c[i].0 != x
    ensures Bump(c, x) == c + [(x, 1)]
  {
    if c != [] {
      assert forall i :: 0 <= i < |c[1..]| ==> c[1..][i] == c[i + 1];
      BumpAbsent(c[1..], x);
      assert [c[0]] + (c[1..] + [(x, 1)]) == c + [(x, 1)];
    }
  }

  /** `Bump` increments the first entry of an item it has seen. */
  lemma {:induction false} BumpAt<T>(c: seq<(T, int)>, x: T, i: nat)
    requires i < |c| && c[i].0 == x
    requires forall j :: 0 <= j < i ==> c[j].0 != x
    ensures Bump(c, x) == c[i := (x, c[i].1 + 1)]
  {
    if i > 0 {
      assert forall j :: 0 <= j < i - 1 ==> c[1..][j] == c[j + 1];
      BumpAt(c[1..], x, i - 1);
      assert [c[0]] + c[1..][i - 1 := (x, c[i].1 + 1)] == c[i := (x, c[i].1 + 1)];
    }
  }

  lemma {:induction false} SumCountsAppend<T>(c: seq<(T, int)>, p: (T, int))
    ensures SumCounts(c + [p]) == SumCounts(c) + p.1
  {
    if c != [] {
      assert (c + [p])[1..] == c[1..] + [p];
      SumCountsAppend(c[1..], p);
    }
  }

  lemma {:induction false} SumCountsUpdate<T>(c: seq<(T, int)>, i: nat, p: (T, int))
    requires i < |c|
    ensures SumCounts(c[i := p]) == SumCounts(c) - c[i].1 + p.1
  {
    if i > 0 {
      assert c[i := p][1..] == c[1..][i - 1 := p];
      SumCountsUpdate(c[1..], i - 1, p);
    }
  }

  /** Counting an item not seen before appends it with count one. */
  lemma BumpNew<T>(c: seq<(T, int)>, v: seq<T>, x: T)
    requires CountsOf(c, v) && x !in v
    ensures Bump(c, x) == c + [(x, 1)]
    ensures CountsOf(c + [(x, 1)], v + [x])
  {
    var v' := v + [x];
    assert multiset(v') == multiset(v) + multiset{x};
    BumpAbsent(c, x);
    var r := c + [(x, 1)];
    forall y | y in v' ensures exists i :: 0 <= i < |r| && r[i].0 == y {
      if y == x {
        assert r[|c|].0 == y;
      } else {
        var i :| 0 <= i < |c| && c[i].0 == y;
        assert r[i].0 == y;
      }
    }
  }

  /** Counting an item seen before increments its entry in place. */
  lemma BumpSeen<T>(c: seq<(T, int)>, v: seq<T>, x: T) returns (i: nat)
    requires CountsOf(c, v) && x in v
    ensures i < |c| && c[i].0 == x
    ensures Bump(c, x) == c[i := (x, c[i].1 + 1)]
    ensures CountsOf(Bump(c, x), v + [x])
  {
    i :| 0 <= i < |c| && c[i].0 == x;
    BumpAt(c, x, i);
    BumpedCounts(c, v, i);
  }

  /** Raising the count of entry `i` by one counts one more of its item. */
  lemma BumpedCounts<T>(c: seq<(T, int)>, v: seq<T>, i: nat)
    requires CountsOf(c, v) && i < |c|
    ensures CountsOf(c[i := (c[i].0, c[i].1 + 1)], v + [c[i].0])
  {
    var x := c[i].0;
    var v' := v + [x];
    var r := c[i := (x, c[i].1 + 1)];
    assert multiset(v') == multiset(v) + multiset{x};
    assert forall j :: 0 <= j < |r| ==> r[j].0 == c[j].0;
    forall j | 0 <= j < |r| ensures r[j].0 in v' && r[j].1 == multiset(v')[r[j].0] {
      if j != i {
        assert r[j] == c[j];
      }
    }
    forall y | y in v' ensures exists j :: 0 <= j < |r| && r[j].0 == y {
      var j :| 0 <= j < |c| && c[j].0 == y;
      assert r[j].0 == y;
    }
  }

  /** Counting one more `x` keeps the counter exact. */
  lemma BumpCounts<T>(c: seq<(T, int)>, v: seq<T>, x: T)
    requires CountsOf(c, v)
    ensures CountsOf(Bump(c, x), v + [x])
    ensures SumCounts(Bump(c, x)) == SumCounts(c) + 1
    ensures x !in v ==> Bump(c, x) == c + [(x, 1)]
    ensures x in v ==> |Bump(c, x)| == |c| && forall i :: 0 <= i < |c| ==> Bump(c, x)[i].0 == c[i].0
  {
    if x !in v {
      BumpNew(c, v, x);
      SumCountsAppend(c, (x, 1));
    } else {
      var i := BumpSeen(c, v, x);
      SumCountsUpdate(c, i, (x, c[i].1 + 1));
    }
  }

  /** The total of a counter's counts. */
  function SumCounts<T>(c: seq<(T, int)>): int
  {
    if c == [] then 0 else c[0].1 + SumCounts(c[1..])
  }

  /** The counter holds every item of `v` once, with its number of occurrences,
      and its counts add up to `len(v)`. */
  lemma {:induction false} TallyCounts<T>(v: seq<T>)
    ensures CountsOf(Tally(v), v)
    ensures SumCounts(Tally(v)) == |v|
    decreases |v|
  {
    if v != [] {
      var init := v[..|v| - 1];
      TallyCounts(init);
      BumpCounts(Tally(init), init, v[|v| - 1]);
      assert init + [v[|v| - 1]] == v;
    }
  }

  /** Where `x` first occurs in `v`. */
  function FirstIndex<T(==)>(v: seq<T>, x: T): (k: nat)
    requires x in v
    ensures k < |v| && v[k] == x && x !in v[..k]
  {
    if v[0] == x then 0 else 1 + FirstIndex(v[1..], x)
  }

  lemma {:induction false} FirstIndexAppend<T>(v: seq<T>, w: seq<T>, x: T)
    requires x in v
    ensures FirstIndex(v + w, x) == FirstIndex(v, x)
  {
    if v[0] != x {
      assert (v + w)[1..] == v[1..] + w;
      FirstIndexAppend(v[1..], w, x);
    }
  }

  /** The entries of `c` are items of `v`, listed in the order of their first
      occurrence in `v`. */
  predicate FirstSeenOrder<T(==)>(c: seq<(T, int)>, v: seq<T>) {
    forall i, j :: 0 <= i < j < |c| ==>
      c[i].0 in v && c[j].0 in v && FirstIndex(v, c[i].0) < FirstIndex(v, c[j].0)
  }

  /** `Bump` keeps every item in its place and adds at most `x`, at the end,
      when no entry holds it. */
  lemma {:induction false} BumpKeys<T>(c: seq<(T, int)>, x: T)
    ensures |c| <= |Bump(c, x)| <= |c| + 1
    ensures forall i :: 0 <= i < |c| ==> Bump(c, x)[i].0 == c[i].0
    ensures |Bump(c, x)| == |c| + 1 ==>
              Bump(c, x)[|c|].0 == x && forall i :: 0 <= i < |c| ==> c[i].0 != x
  {
    if c != [] && c[0].0 != x {
      BumpKeys(c[1..], x);
      assert forall i :: 0 < i < |c| ==> c[i] == c[1..][i - 1];
    }
  }

  /** Counting one more `x` keeps a counter of `v` in first-seen order. */
  lemma BumpFirstSeenOrder<T>(c: seq<(T, int)>, v: seq<T>, x: T)
    requires CountsOf(c, v) && FirstSeenOrder(c, v)
    ensures FirstSeenOrder(Bump(c, x), v + [x])
  {
    var c' := Bump(c, x);
    BumpKeys(c, x);
    forall i, j | 0 <= i < j < |c'|
      ensures c'[i].0 in v + [x] && c'[j].0 in v + [x]
      ensures FirstIndex(v + [x], c'[i].0) < FirstIndex(v + [x], c'[j].0)
    {
      FirstIndexAppend(v, [x], c[i].0);
      if j < |c| {
        FirstIndexAppend(v, [x], c[j].0);
      } else {
        assert x !in v;
        assert FirstIndex(v + [x], x) == |v|;
      }
    }
  }

  /** A counter lists its items in the order they first occur, which is the
      order `most_common` keeps among equal counts. */
  lemma {:induction false} TallyFirstSeenOrder<T>(v: seq<T>)
    ensures FirstSeenOrder(Tally(v), v)
    decreases |v|
  {
    if v != [] {
      var init := v[..|v| - 1];
      assert init + [v[|v| - 1]] == v;
      TallyFirstSeenOrder(init);
      TallyCounts(init);
      BumpFirstSeenOrder(Tally(init), init, v[|v| - 1]);
    }
  }

  /** `Counter(v).most_common()`. */
  function MostCommon<T(==)>(v: seq<T>): seq<(T, int)>
  {
    Ranking.SortDesc(Tally(v))
  }

  function Min(a: int, b: int): int { if a <= b then a else b }

  /** `Counter(v).most_common()[1:10]`: the rows the table shows. */
  function Reported<T(==)>(v: seq<T>): seq<(T, int)>
  {
    var m := MostCommon(v);
    m[Min(1, |m|)..Min(10, |m|)]
  }

  lemma TwiceInMultiset<T>(s: seq<T>, i: nat, j: nat)
    requires i < j < |s| && s[i] == s[j]
    ensures multiset(s)[s[i]] >= 2
  {
    assert s == s[..j] + s[j..];
    assert s[i] in s[..j] && s[j] in s[j..];
    assert multiset(s) == multiset(s[..j]) + multiset(s[j..]);
  }

  lemma {:induction false} DistinctKeysOnce<T>(c: seq<(T, int)>, p: (T, int))
    requires DistinctKeys(c)
    ensures multiset(c)[p] <= 1
  {
    if c != [] {
      DistinctKeysOnce(c[1..], p);
      assert c == [c[0]] + c[1..];
      if p == c[0] {
        assert p !in c[1..] by {
          forall k | 0 <= k < |c[1..]| ensures c[1..][k] != p { assert c[1..][k] == c[k + 1]; }
        }
      }
    }
  }

  lemma DistinctKeysPermutation<T>(a: seq<(T, int)>, b: seq<(T, int)>)
    requires DistinctKeys(a) && multiset(a) == multiset(b)
    ensures DistinctKeys(b)
  {
    forall i, j | 0 <= i < j < |b| ensures b[i].0 != b[j].0 {
      if b[i].0 == b[j].0 {
        assert b[i] in multiset(a) && b[j] in multiset(a);
        var p :| 0 <= p < |a| && a[p] == b[i];
        var q :| 0 <= q < |a| && a[q] == b[j];
        assert p == q;
        TwiceInMultiset(b, i, j);
        DistinctKeysOnce(a, b[i]);
      }
    }
  }

  /** The ranked counter holds each item of `v` once, with its count. */
  lemma MostCommonCounts<T>(v: seq<T>)
    ensures CountsOf(MostCommon(v), v)
    ensures Ranking.NonIncreasing(MostCommon(v))
  {
    var c := Tally(v);
    var m := MostCommon(v);
    TallyCounts(v);
    Ranking.SortDescSorts(c);
    DistinctKeysPermutation(c, m);
    forall i | 0 <= i < |m| ensures m[i].0 in v && m[i].1 == multiset(v)[m[i].0] {
      assert m[i] in multiset(c);
    }
    forall x | x in v ensures exists i :: 0 <= i < |m| && m[i].0 == x {
      var k :| 0 <= k < |c| && c[k].0 == x;
      assert c[k] in multiset(m);
    }
  }

  /** Entries of equal count come in the order their items first occur in `v`. */
  predicate TiesFirstSeen<T(==)>(m: seq<(T, int)>, v: seq<T>) {
    forall i, j :: 0 <= i < j < |m| && m[i].1 == m[j].1 ==>
      m[i].0 in v && m[j].0 in v && FirstIndex(v, m[i].0) < FirstIndex(v, m[j].0)
  }

  /** `most_common()` lists items of equal count in the order they were first
      encountered: the counter's order, which the stable sort keeps. */
  lemma MostCommonTies<T>(v: seq<T>)
    ensures TiesFirstSeen(MostCommon(v), v)
  {
    var c := Tally(v);
    var m := MostCommon(v);
    var rank := (x: T) => if x in v then FirstIndex(v, x) else 0;
    TallyFirstSeenOrder(v);
    assert Ranking.ByRank(c, rank);
    Ranking.SortDescTies(c, rank);
    MostCommonCounts(v);
  }

  /** Among items of equal count, the window keeps the order of first
      occurrence, and the first-ranked item it skips is the one encountered
      first. */
  lemma WindowTiesFirst<T>(m: seq<(T, int)>, v: seq<T>)
    requires CountsOf(m, v) && TiesFirstSeen(m, v) && |m| > 0
    ensures var r := m[1..Min(10, |m|)];
            && m[0].0 in v
            && TiesFirstSeen(r, v)
            && (forall i :: 0 <= i < |r| && r[i].1 == m[0].1 ==>
                  r[i].0 in v && FirstIndex(v, m[0].0) < FirstIndex(v, r[i].0))
  {
    var r := m[1..Min(10, |m|)];
    assert forall i :: 0 <= i < |r| ==> r[i] == m[i + 1];
  }

  /** An item cut off after the ninth row with that row's count was encountered
      after the ninth row's item. */
  lemma WindowTiesCut<T>(m: seq<(T, int)>, v: seq<T>)
    requires CountsOf(m, v) && TiesFirstSeen(m, v) && |m| > 0
    ensures var r := m[1..Min(10, |m|)];
            forall x :: x in v && x != m[0].0 && (forall i :: 0 <= i < |r| ==> r[i].0 != x)
                        && |r| == 9 && multiset(v)[x] == r[8].1 ==>
              r[8].0 in v && FirstIndex(v, r[8].0) < FirstIndex(v, x)
  {
    var r := m[1..Min(10, |m|)];
    forall x | x in v && x != m[0].0 && (forall i :: 0 <= i < |r| ==> r[i].0 != x)
                 && |r| == 9 && multiset(v)[x] == r[8].1
      ensures r[8].0 in v && FirstIndex(v, r[8].0) < FirstIndex(v, x)
    {
      var k :| 0 <= k < |m| && m[k].0 == x;
      assert r[8] == m[9];
      forall i | 1 <= i < 10 ensures m[i].0 != x {
        assert m[i] == r[i - 1];
      }
      assert 9 < k;
      assert m[9].1 == m[k].1;
    }
  }

  /** The window `m[1:10]` of a ranked exact counter: its rows are counter
      entries, in order, with distinct items. */
  lemma WindowRows<T>(m: seq<(T, int)>, v: seq<T>)
    requires CountsOf(m, v) && Ranking.NonIncreasing(m)
    ensures var r := m[Min(1, |m|)..Min(10, |m|)];
            && |r| <= 9
            && Ranking.NonIncreasing(r)
            && DistinctKeys(r)
            && (forall i :: 0 <= i < |r| ==> r[i].0 in v && r[i].1 == multiset(v)[r[i].0])
  {
    var lo := Min(1, |m|);
    var r := m[lo..Min(10, |m|)];
    assert forall i :: 0 <= i < |r| ==> r[i] == m[lo + i];
  }

  /** The first entry of a ranked exact counter is a most frequent item. */
  lemma RankedTop<T>(m: seq<(T, int)>, v: seq<T>)
    requires CountsOf(m, v) && Ranking.NonIncreasing(m) && v != []
    ensures |m| > 0 && forall x :: x in v ==> multiset(v)[x] <= m[0].1
  {
    assert v[0] in v;
    forall x | x in v ensures multiset(v)[x] <= m[0].1 {
      var k :| 0 <= k < |m| && m[k].0 == x;
    }
  }

  /** The window `m[1:10]` skips the first entry, and an item it leaves out
      beyond that one occurs at most as often as its ninth row. */
  lemma WindowLeftOut<T>(m: seq<(T, int)>, v: seq<T>)
    requires CountsOf(m, v) && Ranking.NonIncreasing(m) && |m| > 0
    ensures var r := m[1..Min(10, |m|)];
            && (forall i :: 0 <= i < |r| ==> r[i].0 != m[0].0)
            && (forall x :: x in v && x != m[0].0 && (forall i :: 0 <= i < |r| ==> r[i].0 != x) ==>
                            |r| == 9 && multiset(v)[x] <= r[8].1)
  {
    var r := m[1..Min(10, |m|)];
    assert forall i :: 0 <= i < |r| ==> r[i] == m[i + 1];
    assert forall k :: 1 <= k < Min(10, |m|) ==> m[k] == r[k - 1];
    forall x | x in v && x != m[0].0 && (forall i :: 0 <= i < |r| ==> r[i].0 != x)
      ensures |r| == 9 && multiset(v)[x] <= r[8].1
    {
      var k :| 0 <= k < |m| && m[k].0 == x;
    }
  }

  /** The rows: at most nine, in non-increasing count order, each an item of
      `v` with its number of occurrences; the first-ranked item, a most frequent
      one, is never among them; and any other item left out occurs at most as
      often as the last row, there being nine rows then. */
  lemma ReportedRows<T>(v: seq<T>)
    ensures var r := Reported(v);
            && |r| <= 9
            && Ranking.NonIncreasing(r)
            && DistinctKeys(r)
            && (forall i :: 0 <= i < |r| ==> r[i].0 in v && r[i].1 == multiset(v)[r[i].0])
    ensures v != [] ==>
              var m := MostCommon(v);
              var r := Reported(v);
              && |m| > 0
              && (forall x :: x in v ==> multiset(v)[x] <= m[0].1)
              && (forall i :: 0 <= i < |r| ==> r[i].0 != m[0].0)
              && (forall x :: x in v && x != m[0].0 && (forall i :: 0 <= i < |r| ==> r[i].0 != x) ==>
                              |r| == 9 && multiset(v)[x] <= r[8].1)
  {
    MostCommonCounts(v);
    WindowRows(MostCommon(v), v);
    if v != [] {
      RankedTop(MostCommon(v), v);
      WindowLeftOut(MostCommon(v), v);
    }
  }

  /** Which of several equally frequent items the rows show: rows of equal
      count follow the order of first occurrence; the skipped first-ranked item
      was encountered before every row of its count; and an item cut off after
      nine rows with the ninth row's count was encountered after that row's
      item. */
  lemma ReportedTies<T>(v: seq<T>)
    ensures TiesFirstSeen(Reported(v), v)
    ensures v != [] ==>
              var m := MostCommon(v);
              var r := Reported(v);
              && |m| > 0 && m[0].0 in v
              && (forall i :: 0 <= i < |r| && r[i].1 == m[0].1 ==>
                    r[i].0 in v && FirstIndex(v, m[0].0) < FirstIndex(v, r[i].0))
              && (forall x :: x in v && x != m[0].0 && (forall i :: 0 <= i < |r| ==> r[i].0 != x)
                              && |r| == 9 && multiset(v)[x] == r[8].1 ==>
                    r[8].0 in v && FirstIndex(v, r[8].0) < FirstIndex(v, x))
  {
    MostCommonCounts(v);
    MostCommonTies(v);
    var m := MostCommon(v);
    if v != [] {
      RankedTop(m, v);
      WindowTiesFirst(m, v);
      WindowTiesCut(m, v);
    }
  }

  /** The count rule on the example list: `#a` ranks first and is skipped. */
  lemma ReportedExample()
    ensures Reported(["#a", "#a", "#b"]) == [("#b", 1)]
  {
    var v := ["#a", "#a", "#b"];
    assert v[..2] == ["#a", "#a"] && v[..2][..1] == ["#a"] && v[..1][..0] == [];
    assert Tally(["#a"]) == [("#a", 1)];
    assert Tally(["#a", "#a"]) == [("#a", 2)];
    assert "#a"[1] != "#b"[1];
    assert Tally(v) == Bump([("#a", 2)], "#b");
    assert Tally(v) == [("#a", 2), ("#b", 1)];
    assert Ranking.SortDesc([("#b", 1)]) == [("#b", 1)];
    assert MostCommon(v) == [("#a", 2), ("#b", 1)];
  }

  /** The tie rule on an example: `b` and `a` both occur twice, `b` first, so
      `b` ranks first and is skipped. */
  lemma ReportedTieExample()
    ensures Reported(["b", "a", "a", "b"]) == [("a", 2)]
  {
    var v := ["b", "a", "a", "b"];
    assert v[..3] == ["b", "a", "a"] && v[..3][..2] == ["b", "a"] && v[..2][..1] == ["b"] && v[..1][..0] == [];
    assert "a"[0] != "b"[0];
    assert ["b", "a"][..1] == ["b"] && ["b"][..0] == [];
    assert Tally(["b"]) == [("b", 1)];
    assert Tally(["b", "a"]) == Bump([("b", 1)], "a");
    assert Bump([("b", 1)], "a") == [("b", 1)] + Bump([], "a");
    assert Tally(["b", "a"]) == [("b", 1), ("a", 1)];
    assert Tally(["b", "a", "a"]) == Bump([("b", 1), ("a", 1)], "a") == [("b", 1), ("a", 2)];
    assert Tally(v) == Bump([("b", 1), ("a", 2)], "b") == [("b", 2), ("a", 2)];
    assert Ranking.SortDesc([("a", 2)]) == [("a", 2)];
    assert MostCommon(v) == [("b", 2), ("a", 2)];
  }

  /** The counting and row-adding loops for one list (statistics.py:73-74):
      count the items, rank them, and add the ranked entries from the second to
      the tenth as table rows. */
  method TableRows<T(==)>(v: seq<T>) returns (rows: seq<(T, int)>)
    ensures rows == Reported(v)
  {
    var counter: seq<(T, int)> := [];
    for i := 0 to |v|
      invariant counter == Tally(v[..i])
    {
      assert v[..i + 1][..i] == v[..i];
      counter := Bump(counter, v[i]);
    }
    assert v[..|v|] == v;
    var ranked := Ranking.SortDesc(counter);
    var window := ranked[Min(1, |ranked|)..Min(10, |ranked|)];
    rows := [];
    for j := 0 to |window|
      invariant rows == window[..j]
    {
      rows := rows + [window[j]];
    }
    assert window[..|window|] == window;
  }

  /** The statistics object: the pages and the four lists its constructor fills. */
  class Statistics {
    const tweetNestedList: seq<Page>
    var texts: seq<string>
    var screenNames: seq<Option<string>>
    var hashtags: seq<string>
    var words: seq<string>

    constructor (tweetNestedList: seq<Page>)
      ensures this.tweetNestedList == tweetNestedList
      ensures texts == Texts(tweetNestedList) && hashtags == Hashtags(tweetNestedList)
      ensures screenNames == ScreenNames(tweetNestedList) && words == Words(tweetNestedList)
    {
      this.tweetNestedList := tweetNestedList;
      texts := [];
      screenNames := [];
      hashtags := [];
      words := [];
      new;
      GetTexts();
      GetHashtags();
      GetScreenNames();
      GetWords();
    }

    method GetTexts()
      modifies this`texts
      ensures texts == Texts(tweetNestedList)
    {
      texts := Texts(tweetNestedList);
    }

    method GetHashtags()
      modifies this`hashtags
      ensures hashtags == Hashtags(tweetNestedList)
    {
      hashtags := Hashtags(tweetNestedList);
    }

    method GetScreenNames()
      modifies this`screenNames
      ensures screenNames == ScreenNames(tweetNestedList)
    {
      screenNames := ScreenNames(tweetNestedList);
    }

    method GetWords()
      modifies this`words
      ensures words == Words(tweetNestedList)
    {
      words := Words(tweetNestedList);
    }

    /** `print_prettytable`: the rows of the hashtag, screen-name and word
        tables, in that order; the texts are not tabulated. */
    method PrintPrettyTable() returns (hashtagRows: seq<(string, int)>,
                                       nameRows: seq<(Option<string>, int)>,
                                       wordRows: seq<(string, int)>)
      ensures hashtagRows == Reported(hashtags)
      ensures nameRows == Reported(screenNames)
      ensures wordRows == Reported(words)
    {
      hashtagRows := TableRows(hashtags);
      nameRows := TableRows(screenNames);
      wordRows := TableRows(words);
    }
  }
}
