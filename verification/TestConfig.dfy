/**
 The configuration text of the proxy-wasm test filter:
 spec/fixtures/proxy_wasm_filters/tests/src/types.rs.
 */
module TestConfig {
  import opened Wrappers

  type Entries = map<string, string>

  /** The characters with the Unicode property White_Space. */
  predicate IsSpace(c: char) {
    var n := c as int;
    || 0x09 <= n <= 0x0D || n == 0x20 || n == 0x85 || n == 0xA0 || n == 0x1680
    || 0x2000 <= n <= 0x200A || n == 0x2028 || n == 0x2029 || n == 0x202F || n == 0x205F || n == 0x3000
  }

  /** The text before the first character that satisfies `stop`. */
  function Before(s: string, stop: char -> bool): (r: string)
    ensures |r| <= |s| && r == s[..|r|]
    ensures forall c | c in r :: !stop(c)
    ensures |r| < |s| ==> stop(s[|r|])
  {
    if s == [] || stop(s[0]) then [] else [s[0]] + Before(s[1..], stop)
  }

  /** `str::split_whitespace` */
  function SplitWhitespace(s: string): (words: seq<string>)
    ensures forall w | w in words :: w != [] && forall c | c in w :: !IsSpace(c)
    decreases |s|
  {
    if s == [] then []
    else if IsSpace(s[0]) then SplitWhitespace(s[1..])
    else
      var word := Before(s, IsSpace);
      [word] + SplitWhitespace(s[|word|..])
  }

  predicate IsEquals(c: char) {
    c == '='
  }

  /** `str::split_once('=')` */
  function SplitOnce(word: string): (r: Option<(string, string)>)
    ensures r.Some? ==> word == r.value.0 + "=" + r.value.1 && '=' !in r.value.0
    ensures r.None? ==> '=' !in word
  {
    var key := Before(word, IsEquals);
    assert '=' in key ==> !IsEquals('=');
    if |key| == |word| then None else Some((key, word[|key| + 1..]))
  }

  /** The `filter_map`, `map` and `collect` of lines 13-17: words without `=` are skipped, later words win. */
  function Collect(words: seq<string>): Entries {
    if words == [] then map[]
    else
      var before := Collect(words[..|words| - 1]);
      match SplitOnce(words[|words| - 1])
      case None => before
      case Some((k, v)) => before[k := v]
  }

  function FromStr(s: string): Entries {
    Collect(SplitWhitespace(s))
  }

  // --- Display ---

  /** The order of strings: the order of their code points, which is the order of their UTF-8 bytes. */
  predicate Precedes(a: string, b: string) {
    if a == [] then true
    else if b == [] then false
    else a[0] < b[0] || (a[0] == b[0] && Precedes(a[1..], b[1..]))
  }

  function EntryText(k: string, v: string): string {
    k + "=" + v
  }

  function Insert(x: string, sorted: seq<string>): seq<string> {
    if sorted == [] || Precedes(x, sorted[0]) then [x] + sorted
    else [sorted[0]] + Insert(x, sorted[1..])
  }

  /** `sort` of the standard library; `SortedIsUnique` shows that no other sort gives another result. */
  function Sort(values: seq<string>): seq<string> {
    if values == [] then [] else Insert(values[0], Sort(values[1..]))
  }

  function Join(values: seq<string>): string {
    if values == [] then []
    else if |values| == 1 then values[0]
    else values[0] + " " + Join(values[1..])
  }

  /** One way to iterate over the map: every key once. */
  ghost predicate Iterates(order: seq<string>, c: Entries) {
    && (forall k :: k in order <==> k in c)
    && (forall i, j | 0 <= i < j < |order| :: order[i] != order[j])
  }

  ghost predicate AllKeys(order: seq<string>, c: Entries) {
    forall i | 0 <= i < |order| :: order[i] in c
  }

  ghost function Texts(order: seq<string>, c: Entries): seq<string>
    requires AllKeys(order, c)
  {
    seq(|order|, i requires 0 <= i < |order| => EntryText(order[i], c[order[i]]))
  }

  /** What `Display` prints when the map is iterated in this order. */
  ghost function Printed(order: seq<string>, c: Entries): string
    requires AllKeys(order, c)
  {
    Join(Sort(Texts(order, c)))
  }

  /** Lines 23-29, for the iteration order the map happens to have. */
  method Display(c: Entries, order: seq<string>) returns (text: string)
    requires Iterates(order, c)
    ensures text == Printed(order, c)
  {
    var values: seq<string> := [];
    for i := 0 to |order|
      invariant values == Texts(order, c)[..i]
    {
      values := values + [EntryText(order[i], c[order[i]])];
    }
    assert Texts(order, c)[..|order|] == Texts(order, c);
    values := Sort(values);
    text := Join(values);
  }

  // --- The order of strings ---

  lemma {:induction false} PrecedesTotal(a: string, b: string)
    ensures Precedes(a, b) || Precedes(b, a)
    ensures Precedes(a, b) && Precedes(b, a) ==> a == b
  {
    if a != [] && b != [] {
      PrecedesTotal(a[1..], b[1..]);
      assert a == [a[0]] + a[1..] && b == [b[0]] + b[1..];
    }
  }

  lemma {:induction false} PrecedesTransitive(a: string, b: string, c: string)
    requires Precedes(a, b) && Precedes(b, c)
    ensures Precedes(a, c)
  {
    if a != [] && b != [] && c != [] && a[0] == b[0] == c[0] {
      PrecedesTransitive(a[1..], b[1..], c[1..]);
    }
  }

  /** `a` and `b` agree on the first `n` characters, and then `a` ends or has the smaller one. */
  ghost predicate SmallerAt(a: string, b: string, n: nat) {
    n <= |a| && n <= |b| && a[..n] == b[..n] && (n == |a| || (n < |b| && a[n] < b[n]))
  }

  /** The order is that of dictionaries, by code points. */
  lemma {:induction false} PrecedesIff(a: string, b: string)
    ensures Precedes(a, b) <==> exists n: nat :: SmallerAt(a, b, n)
  {
    if a == [] {
      assert SmallerAt(a, b, 0);
    } else if b != [] && a[0] == b[0] {
      PrecedesIff(a[1..], b[1..]);
      forall n: nat
        ensures SmallerAt(a, b, n + 1) <==> SmallerAt(a[1..], b[1..], n)
      {
        if n + 1 <= |a| && n + 1 <= |b| {
          assert a[..n + 1] == [a[0]] + a[1..][..n] && b[..n + 1] == [b[0]] + b[1..][..n];
          assert a[..n + 1][1..] == a[1..][..n] && b[..n + 1][1..] == b[1..][..n];
        }
      }
      assert !SmallerAt(a, b, 0);
      if n: nat :| SmallerAt(a, b, n) {
        assert SmallerAt(a[1..], b[1..], n - 1) by {
          assert n == (n - 1) + 1;
        }
      }
      if n: nat :| SmallerAt(a[1..], b[1..], n) {
        assert SmallerAt(a, b, n + 1);
      }
    } else if b != [] {
      assert SmallerAt(a, b, 0) <==> a[0] < b[0];
      forall n: nat | n > 0
        ensures !SmallerAt(a, b, n)
      {
        if n <= |a| && n <= |b| {
          assert a[..n][0] != b[..n][0];
        }
      }
    }
  }

  ghost predicate Ascending(values: seq<string>) {
    forall i, j | 0 <= i <= j < |values| :: Precedes(values[i], values[j])
  }

  lemma {:induction false} InsertPermutes(x: string, sorted: seq<string>)
    ensures multiset(Insert(x, sorted)) == multiset(sorted) + multiset{x}
  {
    if sorted != [] && !Precedes(x, sorted[0]) {
      InsertPermutes(x, sorted[1..]);
      assert sorted == [sorted[0]] + sorted[1..];
    }
  }

  lemma {:induction false} PrependSorts(x: string, sorted: seq<string>)
    requires Ascending(sorted) && (sorted != [] ==> Precedes(x, sorted[0]))
    ensures Ascending([x] + sorted)
  {
    PrecedesTotal(x, x);
    forall j | 0 <= j < |sorted|
      ensures Precedes(x, sorted[j])
    {
      PrecedesTransitive(x, sorted[0], sorted[j]);
    }
  }

  lemma {:induction false} InsertSorts(x: string, sorted: seq<string>)
    requires Ascending(sorted)
    ensures Ascending(Insert(x, sorted))
  {
    if sorted == [] || Precedes(x, sorted[0]) {
      PrependSorts(x, sorted);
    } else {
      var rest := Insert(x, sorted[1..]);
      InsertSorts(x, sorted[1..]);
      PrecedesTotal(x, sorted[0]);
      assert rest[0] == x || rest[0] == sorted[1];
      PrependSorts(sorted[0], rest);
    }
  }

  lemma {:induction false} SortSorts(values: seq<string>)
    ensures Ascending(Sort(values)) && multiset(Sort(values)) == multiset(values)
  {
    if values != [] {
      SortSorts(values[1..]);
      InsertSorts(values[0], Sort(values[1..]));
      InsertPermutes(values[0], Sort(values[1..]));
      assert values == [values[0]] + values[1..];
    }
  }

  /** Any way to sort gives the same result. */
  lemma {:induction false} SortedIsUnique(a: seq<string>, b: seq<string>)
    requires Ascending(a) && Ascending(b) && multiset(a) == multiset(b)
    ensures a == b
  {
    if a == [] {
      assert |multiset(b)| == |b|;
    } else {
      assert a[0] in multiset(b) && b[0] in multiset(a) by {
        assert a[0] in multiset(a);
        assert |multiset(a)| == |a| && |multiset(b)| == |b|;
        assert b[0] in multiset(b);
      }
      PrecedesTotal(a[0], b[0]);
      assert a == [a[0]] + a[1..] && b == [b[0]] + b[1..];
      assert multiset(a[1..]) == multiset(a) - multiset{a[0]};
      SortedIsUnique(a[1..], b[1..]);
    }
  }

  // --- The iteration order does not show ---

  lemma {:induction false} CountsOfDistinct(order: seq<string>, k: string)
    requires forall i, j | 0 <= i < j < |order| :: order[i] != order[j]
    ensures multiset(order)[k] == if k in order then 1 else 0
  {
    if order != [] {
      assert order == [order[0]] + order[1..];
      CountsOfDistinct(order[1..], k);
    }
  }

  lemma {:induction false} DropSame(order: seq<string>, other: seq<string>, j: nat)
    requires order != [] && j < |other| && other[j] == order[0] && multiset(order) == multiset(other)
    ensures multiset(order[1..]) == multiset(other[..j] + other[j + 1..])
  {
    assert order == [order[0]] + order[1..];
    assert other == other[..j] + [other[j]] + other[j + 1..];
    assert multiset(order[1..]) == multiset(order) - multiset{order[0]};
    assert multiset(other[..j] + other[j + 1..]) == multiset(other) - multiset{order[0]};
  }

  lemma {:induction false} TextsHead(order: seq<string>, c: Entries)
    requires order != [] && AllKeys(order, c)
    ensures multiset(Texts(order, c)) == multiset(Texts(order[1..], c)) + multiset{EntryText(order[0], c[order[0]])}
  {
    assert Texts(order, c) == [EntryText(order[0], c[order[0]])] + Texts(order[1..], c);
  }

  lemma {:induction false} TextsDropOne(order: seq<string>, j: nat, c: Entries)
    requires j < |order| && AllKeys(order, c)
    ensures multiset(Texts(order, c))
         == multiset(Texts(order[..j] + order[j + 1..], c)) + multiset{EntryText(order[j], c[order[j]])}
  {
    var rest := order[..j] + order[j + 1..];
    assert Texts(order, c) == Texts(order[..j], c) + [EntryText(order[j], c[order[j]])] + Texts(order[j + 1..], c);
    assert Texts(rest, c) == Texts(order[..j], c) + Texts(order[j + 1..], c);
  }

  lemma {:induction false} TextsPermute(order: seq<string>, other: seq<string>, c: Entries)
    requires multiset(order) == multiset(other)
    requires AllKeys(order, c) && AllKeys(other, c)
    ensures multiset(Texts(order, c)) == multiset(Texts(other, c))
    decreases |order|
  {
    if order == [] {
      assert |multiset(other)| == |other|;
    } else {
      var j := IndexIn(order, other);
      DropSame(order, other, j);
      TextsPermute(order[1..], other[..j] + other[j + 1..], c);
      TextsHead(order, c);
      TextsDropOne(other, j, c);
    }
  }

  lemma {:induction false} IndexIn(order: seq<string>, other: seq<string>) returns (j: nat)
    requires multiset(order) == multiset(other) && order != []
    ensures j < |other| && other[j] == order[0]
  {
    assert order[0] in multiset(order);
    j :| 0 <= j < |other| && other[j] == order[0];
  }

  /** The printed text is the same for every iteration order of the map. */
  lemma {:induction false} DisplayIgnoresOrder(c: Entries, order: seq<string>, other: seq<string>)
    requires Iterates(order, c) && Iterates(other, c)
    ensures Printed(order, c) == Printed(other, c)
  {
    forall k: string
      ensures multiset(order)[k] == multiset(other)[k]
    {
      CountsOfDistinct(order, k);
      CountsOfDistinct(other, k);
    }
    assert multiset(order) == multiset(other);
    TextsPermute(order, other, c);
    SortSorts(Texts(order, c));
    SortSorts(Texts(other, c));
    SortedIsUnique(Sort(Texts(order, c)), Sort(Texts(other, c)));
  }

  // --- Round trip ---

  ghost predicate NoSpace(s: string) {
    forall c | c in s :: !IsSpace(c)
  }

  /** No white space anywhere, and no `=` in a key. */
  ghost predicate Clean(c: Entries) {
    forall k | k in c :: NoSpace(k) && '=' !in k && NoSpace(c[k])
  }

  lemma {:induction false} CollectIsClean(words: seq<string>)
    requires forall w | w in words :: NoSpace(w)
    ensures Clean(Collect(words))
  {
    if words != [] {
      CollectIsClean(words[..|words| - 1]);
      assert words[|words| - 1] in words;
    }
  }

  /** Everything parsed is clean. */
  lemma {:induction false} ParsedIsClean(s: string)
    ensures Clean(FromStr(s))
  {
    CollectIsClean(SplitWhitespace(s));
  }

  lemma {:induction false} BeforeStops(s: string, rest: string, stop: char -> bool)
    requires forall c | c in s :: !stop(c)
    requires rest == [] || stop(rest[0])
    ensures Before(s + rest, stop) == s
  {
    if s == [] {
      assert s + rest == rest;
    } else {
      assert (s + rest)[1..] == s[1..] + rest;
      assert s[0] in s;
      BeforeStops(s[1..], rest, stop);
    }
  }

  ghost predicate IsWord(w: string) {
    w != [] && NoSpace(w)
  }

  ghost predicate AllWords(words: seq<string>) {
    forall i | 0 <= i < |words| :: IsWord(words[i])
  }

  lemma {:induction false} SplitFirst(word: string, rest: string)
    requires IsWord(word) && (rest == [] || IsSpace(rest[0]))
    ensures SplitWhitespace(word + rest) == [word] + SplitWhitespace(rest)
  {
    BeforeStops(word, rest, IsSpace);
    assert word[0] in word;
    assert (word + rest)[|word|..] == rest;
  }

  /** The characters with the Unicode property White_Space, one by one. */
  ghost const WHITE_SPACE: string :=
    "\t\n\U{0B}\U{0C}\r \U{85}\U{A0}\U{1680}\U{2000}\U{2001}"
    + "\U{2002}\U{2003}\U{2004}\U{2005}\U{2006}\U{2007}\U{2008}\U{2009}\U{200A}\U{2028}\U{2029}\U{202F}\U{205F}\U{3000}"

  /** A character between two words separates them if it is white space, and belongs to the one word otherwise. */
  lemma {:induction false} SeparatesIff(v: string, c: char, w: string)
    requires IsWord(v) && IsWord(w)
    ensures SplitWhitespace(v + [c] + w) == if c in WHITE_SPACE then [v, w] else [v + [c] + w]
  {
    SpaceIff(c);
    if IsSpace(c) {
      SplitFirst(v, [c] + w);
      assert v + [c] + w == v + ([c] + w) && ([c] + w)[1..] == w && w + [] == w;
      SplitFirst(w, []);
    } else {
      SplitFirst(v + [c] + w, []);
      assert v + [c] + w + [] == v + [c] + w;
    }
  }

  lemma {:induction false} SpaceIff(c: char)
    ensures IsSpace(c) <==> c in WHITE_SPACE
  {
    var n := c as int;
    if IsSpace(c) {
      assert WHITE_SPACE[if n < 0x20 then n - 9 else if n == 0x20 then 5 else if n == 0x85 then 6 else if n == 0xA0 then 7
        else if n == 0x1680 then 8 else if n < 0x2028 then n - 0x2000 + 9 else if n == 0x2028 then 20
        else if n == 0x2029 then 21 else if n == 0x202F then 22 else if n == 0x205F then 23 else 24] == c;
    }
  }

  /** The joined text grows by a space and the next word. */
  lemma {:induction false} JoinGrows(words: seq<string>, w: string)
    ensures Join(words + [w]) == if words == [] then w else Join(words) + " " + w
  {
    if words != [] {
      assert (words + [w])[0] == words[0] && (words + [w])[1..] == words[1..] + [w];
      JoinGrows(words[1..], w);
    } else {
      assert words + [w] == [w];
    }
  }

  /** Words joined by single spaces are split where they were joined. */
  lemma {:induction false} SplitJoin(words: seq<string>)
    requires AllWords(words)
    ensures SplitWhitespace(Join(words)) == words
  {
    if |words| == 1 {
      SplitFirst(words[0], []);
      assert words[0] + [] == words[0] && words == [words[0]];
    } else if words != [] {
      SplitJoin(words[1..]);
      SplitFirst(words[0], " " + Join(words[1..]));
      assert words[0] + " " + Join(words[1..]) == words[0] + (" " + Join(words[1..]));
      assert (" " + Join(words[1..]))[1..] == Join(words[1..]);
    }
  }

  lemma {:induction false} SplitEntry(k: string, v: string)
    requires '=' !in k
    ensures SplitOnce(EntryText(k, v)) == Some((k, v))
  {
    assert EntryText(k, v) == k + ("=" + v);
    BeforeStops(k, "=" + v, IsEquals);
  }

  ghost predicate IsEntry(c: Entries, w: string) {
    exists k :: k in c && w == EntryText(k, c[k])
  }

  ghost predicate AllEntries(c: Entries, words: seq<string>) {
    forall i | 0 <= i < |words| :: IsEntry(c, words[i])
  }

  ghost predicate Covers(words: seq<string>, c: Entries) {
    forall k | k in c :: EntryText(k, c[k]) in words
  }

  /** Words that are entries of `c` collect into a part of `c`. */
  lemma {:induction false} CollectWithin(words: seq<string>, c: Entries)
    requires Clean(c)
    requires AllEntries(c, words)
    ensures forall k | k in Collect(words) :: k in c && Collect(words)[k] == c[k]
    ensures forall k | k in c && EntryText(k, c[k]) in words :: k in Collect(words)
  {
    if words != [] {
      var n := |words| - 1;
      CollectWithin(words[..n], c);
      assert IsEntry(c, words[n]);
      var k :| k in c && words[n] == EntryText(k, c[k]);
      SplitEntry(k, c[k]);
      forall l | l in c && EntryText(l, c[l]) in words
        ensures l in Collect(words)
      {
        if EntryText(l, c[l]) == words[n] {
          SplitEntry(l, c[l]);
        } else {
          assert EntryText(l, c[l]) in words[..n];
        }
      }
    }
  }

  lemma {:induction false} CollectAll(words: seq<string>, c: Entries)
    requires Clean(c) && AllEntries(c, words) && Covers(words, c)
    ensures Collect(words) == c
  {
    CollectWithin(words, c);
  }

  lemma {:induction false} CleanTextsAreWords(c: Entries, words: seq<string>)
    requires Clean(c) && AllEntries(c, words)
    ensures AllWords(words)
  {
    forall i | 0 <= i < |words|
      ensures IsWord(words[i])
    {
      assert IsEntry(c, words[i]);
    }
  }

  lemma {:induction false} SortedTexts(c: Entries, order: seq<string>)
    requires Iterates(order, c)
    ensures AllEntries(c, Sort(Texts(order, c))) && Covers(Sort(Texts(order, c)), c)
  {
    var texts := Texts(order, c);
    SortSorts(texts);
    forall n | 0 <= n < |Sort(texts)|
      ensures IsEntry(c, Sort(texts)[n])
    {
      assert Sort(texts)[n] in multiset(Sort(texts));
      var i :| 0 <= i < |texts| && texts[i] == Sort(texts)[n];
      assert order[i] in order;
    }
    forall k | k in c
      ensures EntryText(k, c[k]) in Sort(texts)
    {
      assert k in order;
      var i :| 0 <= i < |order| && order[i] == k;
      assert texts[i] in multiset(texts);
      assert texts[i] in multiset(Sort(texts));
    }
  }

  lemma {:induction false} CleanRoundTrip(c: Entries, order: seq<string>)
    requires Iterates(order, c) && Clean(c)
    ensures FromStr(Printed(order, c)) == c
  {
    var words := Sort(Texts(order, c));
    SortedTexts(c, order);
    CleanTextsAreWords(c, words);
    SplitJoin(words);
    CollectAll(words, c);
  }

  /** Printing and parsing gives a configuration back exactly when it is clean. */
  lemma {:induction false} RoundTripIff(c: Entries, order: seq<string>)
    requires Iterates(order, c)
    ensures FromStr(Printed(order, c)) == c <==> Clean(c)
  {
    ParsedIsClean(Printed(order, c));
    if Clean(c) {
      CleanRoundTrip(c, order);
    }
  }

  /** Whatever was parsed survives printing and parsing again, for every iteration order. */
  lemma {:induction false} ParsedRoundTrip(s: string, order: seq<string>)
    requires Iterates(order, FromStr(s))
    ensures FromStr(Printed(order, FromStr(s))) == FromStr(s)
  {
    ParsedIsClean(s);
    RoundTripIff(FromStr(s), order);
  }

  // --- Later words win ---

  /** A word set off by a space is split off as the last one. */
  lemma {:induction false} SplitAppend(s: string, word: string)
    requires IsWord(word)
    ensures SplitWhitespace(s + (" " + word)) == SplitWhitespace(s) + [word]
    decreases |s|
  {
    var more := " " + word;
    if s == [] {
      assert s + more == more && more[1..] == word && word + [] == word;
      SplitFirst(word, []);
    } else if IsSpace(s[0]) {
      assert (s + more)[1..] == s[1..] + more;
      SplitAppend(s[1..], word);
    } else {
      var first := Before(s, IsSpace);
      SplitAppend(s[|first|..], word);
      FirstWordStays(s, more);
      assert [first] + (SplitWhitespace(s[|first|..]) + [word]) == [first] + SplitWhitespace(s[|first|..]) + [word];
    }
  }

  /** Text that begins with white space leaves the first word of `s` alone. */
  lemma {:induction false} FirstWordStays(s: string, more: string)
    requires s != [] && !IsSpace(s[0]) && more != [] && IsSpace(more[0])
    ensures var first := Before(s, IsSpace);
            SplitWhitespace(s + more) == [first] + SplitWhitespace(s[|first|..] + more)
  {
    var first := Before(s, IsSpace);
    var rest := s[|first|..];
    assert s == first + rest && s + more == first + (rest + more);
    BeforeStops(first, rest + more, IsSpace);
    assert (s + more)[|first|..] == rest + more;
  }

  /** An entry added at the end replaces an earlier one of the same key and changes nothing else. */
  lemma {:induction false} LaterEntryWins(s: string, k: string, v: string)
    requires NoSpace(k) && '=' !in k && NoSpace(v)
    ensures FromStr(s + " " + EntryText(k, v)) == FromStr(s)[k := v]
  {
    var words := SplitWhitespace(s);
    SplitAppend(s, EntryText(k, v));
    assert s + " " + EntryText(k, v) == s + (" " + EntryText(k, v));
    assert (words + [EntryText(k, v)])[..|words|] == words;
    SplitEntry(k, v);
  }

  /** A word without `=` at the end changes nothing. */
  lemma {:induction false} WordWithoutEqualsIsSkipped(s: string, word: string)
    requires IsWord(word) && '=' !in word
    ensures FromStr(s + " " + word) == FromStr(s)
  {
    var words := SplitWhitespace(s);
    SplitAppend(s, word);
    assert s + " " + word == s + (" " + word);
    assert (words + [word])[..|words|] == words;
  }
}
