/**
 * The fragments of a question that are searched for: the whole of it first, then its last words, its
 * words by length, and its windows of up to four words.
 */
module SearchTerms {
  import opened Sequences
  import opened StringOrder

  const MIN_SEARCH_LENGTH := 3
  const MAX_TERMS := 8
  const MAX_WIDTH := 4

  /** How Python sees a character: blank, part of a word (a letter, digit, underscore or hyphen), or neither. */
  datatype Kind = Blank | WordPart | Neither

  type Kinds = char -> Kind

  // ---------------------------------------------------------------------------------------------
  // Words

  /** `str.strip`. */
  function Strip(kinds: Kinds, s: string): (r: string)
    ensures r == "" || (!kinds(r[0]).Blank? && !kinds(r[|r| - 1]).Blank?)
    ensures |r| <= |s|
  {
    if s == "" then ""
    else if kinds(s[0]).Blank? then Strip(kinds, s[1..])
    else if kinds(s[|s| - 1]).Blank? then Strip(kinds, s[..|s| - 1])
    else s
  }

  lemma StripOfStripped(kinds: Kinds, s: string)
    requires s == "" || (!kinds(s[0]).Blank? && !kinds(s[|s| - 1]).Blank?)
    ensures Strip(kinds, s) == s
  {
  }

  /** How many characters of a word the text begins with. */
  function RunLength(kinds: Kinds, s: string): (n: nat)
    ensures n <= |s| && (forall k :: 0 <= k < n ==> kinds(s[k]).WordPart?)
    ensures n < |s| ==> !kinds(s[n]).WordPart?
  {
    if s == "" || !kinds(s[0]).WordPart? then 0 else 1 + RunLength(kinds, s[1..])
  }

  /** What the word pattern finds, in order. */
  function Words(kinds: Kinds, s: string): seq<string>
    decreases |s|
  {
    if s == "" then []
    else
      var n := RunLength(kinds, s);
      if n == 0 then Words(kinds, s[1..]) else [s[..n]] + Words(kinds, s[n..])
  }

  /** The text between `i` and `j` is a whole word: word characters, and no more of them on either side. */
  ghost predicate IsWordAt(kinds: Kinds, s: string, i: int, j: int) {
    && 0 <= i < j <= |s|
    && (forall k :: i <= k < j ==> kinds(s[k]).WordPart?)
    && (i > 0 ==> !kinds(s[i - 1]).WordPart?)
    && (j < |s| ==> !kinds(s[j]).WordPart?)
  }

  ghost predicate HasWord(kinds: Kinds, s: string, w: string) {
    exists i, j :: IsWordAt(kinds, s, i, j) && s[i..j] == w
  }

  lemma {:induction false} WordFurtherOn(kinds: Kinds, s: string, cut: nat, i: int, j: int)
    requires cut <= i <= |s| && (i > cut || (cut > 0 && !kinds(s[cut - 1]).WordPart?))
    ensures IsWordAt(kinds, s, i, j) <==> IsWordAt(kinds, s[cut..], i - cut, j - cut)
    ensures i < j <= |s| ==> s[i..j] == s[cut..][i - cut..j - cut]
  {
    var rest := s[cut..];
    forall k | i <= k < |s| ensures rest[k - cut] == s[k] {
    }
    if IsWordAt(kinds, rest, i - cut, j - cut) {
      forall k | i <= k < j ensures kinds(s[k]).WordPart? {
        assert kinds(rest[k - cut]).WordPart?;
      }
    }
  }

  /** Behind a character that is no part of a word, the words are those of the rest. */
  lemma {:induction false} WordsBehindOther(kinds: Kinds, s: string, w: string)
    requires s != "" && !kinds(s[0]).WordPart?
    ensures HasWord(kinds, s, w) <==> HasWord(kinds, s[1..], w)
  {
    if i, j :| IsWordAt(kinds, s, i, j) && s[i..j] == w {
      WordFurtherOn(kinds, s, 1, i, j);
    }
    if i, j :| IsWordAt(kinds, s[1..], i, j) && s[1..][i..j] == w {
      WordFurtherOn(kinds, s, 1, i + 1, j + 1);
    }
  }

  /** A text that begins with a word has it and the words of the rest. */
  lemma {:induction false} WordsBehindWord(kinds: Kinds, s: string, w: string)
    requires RunLength(kinds, s) > 0
    ensures HasWord(kinds, s, w) <==> w == s[..RunLength(kinds, s)] || HasWord(kinds, s[RunLength(kinds, s)..], w)
  {
    var n := RunLength(kinds, s);
    assert IsWordAt(kinds, s, 0, n) && s[0..n] == s[..n];
    if HasWord(kinds, s, w) {
      WordHereOrLater(kinds, s, w);
    }
    if HasWord(kinds, s[n..], w) {
      var i, j :| IsWordAt(kinds, s[n..], i, j) && s[n..][i..j] == w;
      assert i > 0;
      WordFurtherOn(kinds, s, n, i + n, j + n);
    }
  }

  lemma {:induction false} WordHereOrLater(kinds: Kinds, s: string, w: string)
    requires RunLength(kinds, s) > 0 && HasWord(kinds, s, w)
    ensures w == s[..RunLength(kinds, s)] || HasWord(kinds, s[RunLength(kinds, s)..], w)
  {
    var n := RunLength(kinds, s);
    var i, j :| IsWordAt(kinds, s, i, j) && s[i..j] == w;
    if i > 0 {
      WordInRest(kinds, s, i, j);
      WordFurtherOn(kinds, s, n, i, j);
    } else {
      assert j >= n;
      assert j == n;
    }
  }

  lemma {:induction false} WordInRest(kinds: Kinds, s: string, i: int, j: int)
    requires IsWordAt(kinds, s, i, j) && i > 0
    ensures i > RunLength(kinds, s)
  {
  }

  /** The words are exactly the maximal stretches of word characters. */
  lemma {:induction false} WordsExactly(kinds: Kinds, s: string, w: string)
    ensures w in Words(kinds, s) <==> HasWord(kinds, s, w)
    decreases |s|
  {
    if s != "" {
      var n := RunLength(kinds, s);
      WordsExactly(kinds, if n == 0 then s[1..] else s[n..], w);
      if n == 0 {
        WordsBehindOther(kinds, s, w);
      } else {
        WordsBehindWord(kinds, s, w);
      }
      hide HasWord;
    }
  }

  lemma {:induction false} WordsAreWords(kinds: Kinds, s: string)
    ensures forall w :: w in Words(kinds, s) ==> w != "" && forall c :: c in w ==> kinds(c).WordPart?
  {
    forall w | w in Words(kinds, s) ensures w != "" && forall c :: c in w ==> kinds(c).WordPart? {
      WordsExactly(kinds, s, w);
    }
  }

  /** Joined by single blanks, the words take no more room than they did. */
  lemma {:induction false} WordsFit(kinds: Kinds, s: string)
    ensures |Join(' ', Words(kinds, s))| <= |s|
    decreases |s|
  {
    if s != "" {
      var n := RunLength(kinds, s);
      if n == 0 {
        WordsFit(kinds, s[1..]);
      } else {
        var rest := s[n..];
        assert Words(kinds, s) == [s[..n]] + Words(kinds, rest);
        if rest != "" {
          assert RunLength(kinds, rest) == 0;
          WordsFit(kinds, rest[1..]);
        }
        JoinStep(' ', s[..n], Words(kinds, rest));
      }
    }
  }

  // ---------------------------------------------------------------------------------------------
  // Phrases

  /** The last words, from `width` of them down to two. */
  function Trailing(words: seq<string>, width: nat): seq<string>
    requires width <= |words|
  {
    if width <= 1 then [] else [Join(' ', words[|words| - width..])] + Trailing(words, width - 1)
  }

  /** Longer first, then alphabetically. */
  predicate Before(a: string, b: string) {
    |a| > |b| || (|a| == |b| && AtMost(a, b))
  }

  function PlaceByLength(w: string, s: seq<string>): (r: seq<string>)
    ensures forall x :: x in r <==> x == w || x in s
  {
    if s == [] || Before(w, s[0]) then [w] + s else [s[0]] + PlaceByLength(w, s[1..])
  }

  function ByLength(words: seq<string>): (r: seq<string>)
    ensures forall x :: x in r <==> x in words
  {
    if words == [] then [] else PlaceByLength(words[0], ByLength(words[1..]))
  }

  /** No word is longer than an earlier one, and equally long ones are in alphabetical order. */
  ghost predicate LongestFirst(s: seq<string>) {
    forall i, j :: 0 <= i < j < |s| ==> |s[i]| > |s[j]| || (|s[i]| == |s[j]| && AtMost(s[i], s[j]))
  }

  lemma {:induction false} BeforeIsOrder(a: string, b: string, c: string)
    ensures Before(a, b) || Before(b, a)
    ensures Before(a, b) && Before(b, c) ==> Before(a, c)
  {
    AtMostTotal(a, b);
    if AtMost(a, b) && AtMost(b, c) {
      AtMostTransitive(a, b, c);
    }
    hide AtMost;
  }

  lemma {:induction false} OrderWithFirst(x: string, s: seq<string>)
    requires LongestFirst(s) && forall y :: y in s ==> Before(x, y)
    ensures LongestFirst([x] + s)
  {
    var r := [x] + s;
    assert forall j :: 0 < j < |r| ==> r[j] == s[j - 1] && r[j] in s;
    hide AtMost;
  }

  lemma {:induction false} FirstIsBefore(s: seq<string>, y: string)
    requires LongestFirst(s) && s != [] && y in s
    ensures Before(s[0], y) && LongestFirst(s[1..])
  {
    BeforeIsOrder(s[0], s[0], s[0]);
    hide AtMost;
  }

  lemma {:induction false} PlaceKeepsOrder(w: string, s: seq<string>)
    requires LongestFirst(s)
    ensures LongestFirst(PlaceByLength(w, s)) && multiset(PlaceByLength(w, s)) == multiset(s) + multiset{w}
  {
    hide AtMost, LongestFirst;
    if s == [] || Before(w, s[0]) {
      forall y | y in s ensures Before(w, y) {
        FirstIsBefore(s, y);
        BeforeIsOrder(w, s[0], y);
      }
      OrderWithFirst(w, s);
    } else {
      assert s[0] in s;
      FirstIsBefore(s, s[0]);
      BeforeIsOrder(w, s[0], s[0]);
      PlaceKeepsOrder(w, s[1..]);
      assert s == [s[0]] + s[1..];
      forall y | y in PlaceByLength(w, s[1..]) ensures Before(s[0], y) {
        if y != w {
          assert y in s;
          FirstIsBefore(s, y);
        }
      }
      OrderWithFirst(s[0], PlaceByLength(w, s[1..]));
    }
  }

  /** The single words are tried longest first, and alphabetically where equally long; none is dropped. */
  lemma {:induction false} ByLengthInOrder(words: seq<string>)
    ensures LongestFirst(ByLength(words)) && multiset(ByLength(words)) == multiset(words)
  {
    hide AtMost;
    if words != [] {
      ByLengthInOrder(words[1..]);
      PlaceKeepsOrder(words[0], ByLength(words[1..]));
      assert words == [words[0]] + words[1..];
    }
  }

  /** All runs of `width` words, in order. */
  function WindowsOf(words: seq<string>, width: nat): (r: seq<string>)
    requires 1 <= width <= |words|
    ensures |r| == |words| - width + 1
    ensures forall i :: 0 <= i < |r| ==> r[i] == Join(' ', words[i..i + width])
  {
    seq(|words| - width + 1, i requires 0 <= i < |words| - width + 1 => Join(' ', words[i..i + width]))
  }

  /** All runs of words, from `width` of them down to one. */
  function Windows(words: seq<string>, width: nat): seq<string>
    requires width <= |words|
  {
    if width == 0 then [] else WindowsOf(words, width) + Windows(words, width - 1)
  }

  function Width(words: seq<string>): (width: nat)
    ensures width <= |words|
  {
    if |words| < MAX_WIDTH then |words| else MAX_WIDTH
  }

  function Phrases(kinds: Kinds, text: string): (ps: seq<string>)
    ensures ps != [] && ps[0] == Strip(kinds, text)
  {
    var words := Words(kinds, text);
    [Strip(kinds, text)] + Trailing(words, Width(words)) + ByLength(words) + Windows(words, Width(words))
  }

  /** The phrases stripped, without those that are too short. */
  function Long(kinds: Kinds, phrases: seq<string>): seq<string> {
    if phrases == [] then []
    else
      var before, clean := Long(kinds, phrases[..|phrases| - 1]), Strip(kinds, phrases[|phrases| - 1]);
      if |clean| < MIN_SEARCH_LENGTH then before else before + [clean]
  }

  function Firsts<T>(s: seq<T>, n: nat): seq<T> {
    if |s| <= n then s else s[..n]
  }

  /** The fragments of a question that are searched for, in order. */
  function Terms(kinds: Kinds, question: string): seq<string> {
    var text := Strip(kinds, question);
    if text == "" then [] else Firsts(Distinct(Long(kinds, Phrases(kinds, text))), MAX_TERMS)
  }

  method TrailingPhrases(words: seq<string>) returns (phrases: seq<string>)
    ensures phrases == Trailing(words, Width(words))
  {
    hide Join;
    phrases := [];
    var width := Width(words);
    while width > 1
      invariant 0 <= width <= |words| && phrases + Trailing(words, width) == Trailing(words, Width(words))
    {
      phrases := phrases + [Join(' ', words[|words| - width..])];
      width := width - 1;
    }
  }

  method WindowsOfWidth(words: seq<string>, width: nat) returns (phrases: seq<string>)
    requires 1 <= width <= |words|
    ensures phrases == WindowsOf(words, width)
  {
    hide Join, WindowsOf;
    phrases := [];
    for start := 0 to |words| - width + 1
      invariant phrases == WindowsOf(words, width)[..start]
    {
      phrases := phrases + [Join(' ', words[start..start + width])];
    }
  }

  method WindowPhrases(words: seq<string>) returns (phrases: seq<string>)
    ensures phrases == Windows(words, Width(words))
  {
    hide Join, WindowsOf;
    phrases := [];
    for k := Width(words) downto 0
      invariant phrases + Windows(words, k) == Windows(words, Width(words))
    {
      var more := WindowsOfWidth(words, k + 1);
      assert phrases + (more + Windows(words, k)) == phrases + more + Windows(words, k);
      phrases := phrases + more;
    }
  }

  method FindTerms(kinds: Kinds, question: string) returns (terms: seq<string>)
    ensures terms == Terms(kinds, question)
  {
    hide Strip, Words, Trailing, Windows, ByLength, Long, Distinct;
    var text := Strip(kinds, question);
    if text == "" {
      return [];
    }
    var words := Words(kinds, text);
    var trailing := TrailingPhrases(words);
    var windows := WindowPhrases(words);
    var phrases := [Strip(kinds, text)] + trailing + ByLength(words) + windows;
    assert phrases == Phrases(kinds, text);
    var unique: seq<string> := [];
    NoTerms(kinds);
    for i := 0 to |phrases|
      invariant unique == Distinct(Long(kinds, phrases[..i]))
    {
      var clean := Strip(kinds, phrases[i]);
      NextTerm(kinds, phrases, i);
      if |clean| >= MIN_SEARCH_LENGTH && clean !in unique {
        unique := unique + [clean];
      }
    }
    assert phrases[..|phrases|] == phrases;
    return Firsts(unique, MAX_TERMS);
  }

  lemma {:induction false} NoTerms(kinds: Kinds)
    ensures Distinct(Long(kinds, [])) == []
  {
  }

  lemma {:induction false} NextTerm(kinds: Kinds, phrases: seq<string>, i: nat)
    requires i < |phrases|
    ensures var before, clean := Distinct(Long(kinds, phrases[..i])), Strip(kinds, phrases[i]);
      Distinct(Long(kinds, phrases[..i + 1]))
      == if |clean| >= MIN_SEARCH_LENGTH && clean !in before then before + [clean] else before
  {
    hide Strip, Distinct;
    assert phrases[..i + 1][..i] == phrases[..i];
    DistinctAppend(Long(kinds, phrases[..i]), Strip(kinds, phrases[i]));
  }

  // ---------------------------------------------------------------------------------------------
  // What a fragment is

  /** One to four consecutive words of the text, joined by blanks. */
  ghost predicate IsWindow(words: seq<string>, t: string) {
    exists i, j :: 0 <= i < j <= |words| && j - i <= MAX_WIDTH && t == Join(' ', words[i..j])
  }

  /** The whole question without its outer blanks, or one to four of its words. */
  ghost predicate IsFragment(kinds: Kinds, question: string, t: string) {
    t == Strip(kinds, question) || IsWindow(Words(kinds, Strip(kinds, question)), t)
  }

  lemma {:induction false} TrailingWindows(words: seq<string>, width: nat)
    requires width <= |words| && width <= MAX_WIDTH
    ensures forall t :: t in Trailing(words, width) ==> IsWindow(words, t)
  {
    if width > 1 {
      TrailingWindows(words, width - 1);
      var i := |words| - width;
      assert words[i..] == words[i..i + width];
      assert IsWindow(words, Join(' ', words[i..]));
      hide IsWindow, Join;
    }
  }

  lemma {:induction false} WindowsAreWindows(words: seq<string>, width: nat)
    requires width <= |words| && width <= MAX_WIDTH
    ensures forall t :: t in Windows(words, width) ==> IsWindow(words, t)
  {
    hide Join;
    if width > 0 {
      WindowsAreWindows(words, width - 1);
    }
  }

  lemma {:induction false} SingleWords(words: seq<string>)
    ensures forall t :: t in ByLength(words) ==> IsWindow(words, t)
  {
    forall t | t in ByLength(words) ensures IsWindow(words, t) {
      var i :| 0 <= i < |words| && words[i] == t;
      assert words[i..i + 1] == [t] && Join(' ', [t]) == t;
    }
  }

  lemma {:induction false} PhrasesAreFragments(kinds: Kinds, text: string)
    ensures forall t :: t in Phrases(kinds, text) ==> t == Strip(kinds, text) || IsWindow(Words(kinds, text), t)
  {
    var words := Words(kinds, text);
    TrailingWindows(words, Width(words));
    SingleWords(words);
    WindowsAreWindows(words, Width(words));
    hide IsWindow, Words, Trailing, ByLength, Windows, Strip;
  }

  /** Joined words begin and end with a word character, and fit in where the words came from. */
  lemma {:induction false} JoinedEnds(kinds: Kinds, words: seq<string>)
    requires words != [] && forall w :: w in words ==> w != "" && forall c :: c in w ==> kinds(c).WordPart?
    ensures var t := Join(' ', words);
      t != "" && kinds(t[0]).WordPart? && kinds(t[|t| - 1]).WordPart?
  {
    assert words[0] in words;
    if |words| > 1 {
      assert forall w :: w in words[1..] ==> w in words;
      JoinedEnds(kinds, words[1..]);
    }
  }

  lemma {:induction false} WindowIsStripped(kinds: Kinds, text: string, t: string)
    requires IsWindow(Words(kinds, text), t)
    ensures Strip(kinds, t) == t
  {
    var words := Words(kinds, text);
    WordsAreWords(kinds, text);
    hide Words, Join;
    var i, j :| 0 <= i < j <= |words| && j - i <= MAX_WIDTH && t == Join(' ', words[i..j]);
    assert forall w :: w in words[i..j] ==> w in words;
    JoinedEnds(kinds, words[i..j]);
    StripOfStripped(kinds, t);
  }

  lemma {:induction false} JoinWithin(words: seq<string>, i: nat, j: nat)
    requires i < j <= |words|
    ensures |Join(' ', words[i..j])| <= |Join(' ', words)|
    decreases |words|
  {
    if i > 0 {
      assert words[1..][i - 1..j - 1] == words[i..j];
      JoinWithin(words[1..], i - 1, j - 1);
    } else if j < |words| {
      JoinOfInit(words);
      assert words[..|words| - 1][..j] == words[..j];
      JoinWithin(words[..|words| - 1], 0, j);
    } else {
      assert words[0..j] == words;
    }
  }

  lemma {:induction false} JoinOfInit(words: seq<string>)
    requires |words| > 1
    ensures |Join(' ', words[..|words| - 1])| <= |Join(' ', words)|
  {
    var n := |words| - 1;
    assert words[..n] == [words[0]] + words[1..n];
    JoinStep(' ', words[0], words[1..n]);
    if n > 1 {
      assert words[1..][..n - 1] == words[1..n];
      JoinOfInit(words[1..]);
    }
  }

  /** A fragment is no longer than the question without its outer blanks. */
  lemma {:induction false} FragmentFits(kinds: Kinds, question: string, t: string)
    requires IsFragment(kinds, question, t)
    ensures |t| <= |Strip(kinds, question)|
  {
    var text := Strip(kinds, question);
    var words := Words(kinds, text);
    WordsFit(kinds, text);
    hide Words, Join, Strip;
    if t != text {
      var i, j :| 0 <= i < j <= |words| && j - i <= MAX_WIDTH && t == Join(' ', words[i..j]);
      JoinWithin(words, i, j);
    }
  }

  ghost predicate IsCleaned(kinds: Kinds, phrases: seq<string>, t: string) {
    exists p :: p in phrases && t == Strip(kinds, p)
  }

  lemma {:induction false} LongMembers(kinds: Kinds, phrases: seq<string>)
    ensures forall t :: t in Long(kinds, phrases) ==> |t| >= MIN_SEARCH_LENGTH && IsCleaned(kinds, phrases, t)
    ensures phrases != [] && |Strip(kinds, phrases[0])| >= MIN_SEARCH_LENGTH ==>
      Long(kinds, phrases) != [] && Long(kinds, phrases)[0] == Strip(kinds, phrases[0])
  {
    hide Strip;
    if phrases != [] {
      var init := phrases[..|phrases| - 1];
      LongMembers(kinds, init);
      assert forall p :: p in init ==> p in phrases;
      assert phrases[|phrases| - 1] in phrases;
    }
  }

  lemma {:induction false} FirstOfDistinct<T>(s: seq<T>)
    requires s != []
    ensures Distinct(s) != [] && Distinct(s)[0] == s[0]
  {
    if |s| > 1 {
      FirstOfDistinct(s[..|s| - 1]);
    }
  }

  lemma {:induction false} LongPhrases(kinds: Kinds, question: string)
    ensures var text := Strip(kinds, question);
      && (forall t :: t in Long(kinds, Phrases(kinds, text)) ==>
            |t| >= MIN_SEARCH_LENGTH && IsFragment(kinds, question, t))
      && (|text| >= MIN_SEARCH_LENGTH ==>
            Long(kinds, Phrases(kinds, text)) != [] && Long(kinds, Phrases(kinds, text))[0] == text)
  {
    var text := Strip(kinds, question);
    var phrases := Phrases(kinds, text);
    LongMembers(kinds, phrases);
    PhrasesAreFragments(kinds, text);
    StripOfStripped(kinds, text);
    hide Long, Phrases, Words, Strip, IsWindow;
    forall t | t in Long(kinds, phrases) ensures IsFragment(kinds, question, t) {
      var p :| p in phrases && t == Strip(kinds, p);
      if p != text {
        WindowIsStripped(kinds, text, p);
      }
    }
  }

  /**
   * At most eight different fragments, each of three characters or more: the whole question or up to
   * four of its words. The whole question comes first, and without it there is nothing to search for.
   */
  lemma {:induction false} TermsAreFragments(kinds: Kinds, question: string)
    ensures |Terms(kinds, question)| <= MAX_TERMS && NoDuplicates(Terms(kinds, question))
    ensures forall t :: t in Terms(kinds, question) ==> |t| >= MIN_SEARCH_LENGTH && IsFragment(kinds, question, t)
    ensures |Strip(kinds, question)| >= MIN_SEARCH_LENGTH ==>
      Terms(kinds, question) != [] && Terms(kinds, question)[0] == Strip(kinds, question)
    ensures |Strip(kinds, question)| < MIN_SEARCH_LENGTH ==> Terms(kinds, question) == []
  {
    var text := Strip(kinds, question);
    var all := Long(kinds, Phrases(kinds, text));
    LongPhrases(kinds, question);
    DistinctElements(all);
    if all != [] {
      FirstOfDistinct(all);
    }
    hide Long, Phrases, Distinct, IsFragment, Strip;
    var terms := Terms(kinds, question);
    forall t | t in terms ensures t in all {
      assert t in Distinct(all);
    }
    if terms != [] {
      FragmentFits(kinds, question, terms[0]);
    }
  }
}
