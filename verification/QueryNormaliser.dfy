/** Normalisation of cache queries. Redaction and lower-casing are parameters. */
module QueryNormaliser {
  import opened Text

  const NOISE_PREFIXES: seq<string> := [
    "請問一下", "請幫我查一下", "請幫我查", "請幫我", "請問", "幫我查一下", "幫我查", "幫我",
    "查一下", "查詢一下", "查詢", "看一下", "幫看", "想知道", "請告訴我", "我想了解", "查"]

  const STOP_WORDS: set<string> := {"的", "了", "嗎", "呢", "吧", "呀", "啊", "一下", "個"}

  /* ---------- punctuation ---------- */

  predicate IsSeparator(c: char) {
    IsSpace(c) || c in ".,!?;:，。！？；：~-_/\\()（）「」『』"
  }

  function DropSeparators(s: string): (r: string)
    ensures |r| <= |s|
  {
    if s != "" && IsSeparator(s[0]) then DropSeparators(s[1..]) else s
  }

  /** Every run of separators becomes one blank. */
  function Collapse(s: string): string
    decreases |s|
  {
    if s == "" then ""
    else if IsSeparator(s[0]) then " " + Collapse(DropSeparators(s[1..]))
    else [s[0]] + Collapse(s[1..])
  }

  /* ---------- noise prefixes ---------- */

  predicate NonEmpty(words: seq<string>) {
    forall i :: 0 <= i < |words| ==> words[i] != ""
  }

  /** One pass over the prefixes from the `i`-th on. */
  function PassFrom(prefixes: seq<string>, t: string, i: nat): string
    requires i <= |prefixes|
    decreases |prefixes| - i
  {
    if i == |prefixes| then t
    else if prefixes[i] <= t then PassFrom(prefixes, Strip(t[|prefixes[i]|..]), i + 1)
    else PassFrom(prefixes, t, i + 1)
  }

  lemma {:induction false} TrimShrinks<T>(space: T -> bool, s: seq<T>)
    ensures |Trim(space, s)| <= |s|
  {
    TrimLeftShrinks(space, s);
    TrimRightShrinks(space, TrimLeft(space, s));
  }

  lemma TrimLeftShrinks<T>(space: T -> bool, s: seq<T>)
    ensures |TrimLeft(space, s)| <= |s|
  {
  }

  lemma TrimRightShrinks<T>(space: T -> bool, s: seq<T>)
    ensures |TrimRight(space, s)| <= |s|
  {
  }

  /** A pass leaves the text alone exactly if no prefix is left, and shortens it otherwise. */
  lemma {:induction false} PassShrinks(prefixes: seq<string>, t: string, i: nat)
    requires i <= |prefixes| && NonEmpty(prefixes)
    ensures |PassFrom(prefixes, t, i)| <= |t|
    ensures PassFrom(prefixes, t, i) == t <==> forall k :: i <= k < |prefixes| ==> !(prefixes[k] <= t)
    ensures PassFrom(prefixes, t, i) != t ==> |PassFrom(prefixes, t, i)| < |t|
    decreases |prefixes| - i
  {
    if i < |prefixes| {
      if prefixes[i] <= t {
        TrimShrinks(IsSpace, t[|prefixes[i]|..]);
        PassShrinks(prefixes, Strip(t[|prefixes[i]|..]), i + 1);
      } else {
        PassShrinks(prefixes, t, i + 1);
      }
    }
  }

  /** Passes are repeated until one changes nothing. */
  function StripNoise(prefixes: seq<string>, text: string): string
    requires NonEmpty(prefixes)
    decreases |text|
  {
    TrimShrinks(IsSpace, text);
    PassShrinks(prefixes, Strip(text), 0);
    var clean := Strip(text);
    var t := PassFrom(prefixes, clean, 0);
    if t == clean then clean else StripNoise(prefixes, t)
  }

  /** The loop ends with a text that starts with no noise prefix. */
  lemma {:induction false} NoNoiseLeft(prefixes: seq<string>, text: string)
    requires NonEmpty(prefixes)
    ensures forall p :: p in prefixes ==> !(p <= StripNoise(prefixes, text))
    decreases |text|
  {
    TrimShrinks(IsSpace, text);
    PassShrinks(prefixes, Strip(text), 0);
    var t := PassFrom(prefixes, Strip(text), 0);
    if t != Strip(text) { NoNoiseLeft(prefixes, t); }
  }

  method RemoveNoise(prefixes: seq<string>, text: string) returns (r: string)
    requires NonEmpty(prefixes)
    ensures r == StripNoise(prefixes, text)
  {
    r := text;
    var changed := true;
    while changed
      invariant if changed then StripNoise(prefixes, r) == StripNoise(prefixes, text)
                else r == StripNoise(prefixes, text)
      decreases |r|, changed
    {
      changed := false;
      var clean := Strip(r);
      ghost var start := clean;
      TrimShrinks(IsSpace, r);
      PassShrinks(prefixes, start, 0);
      for i := 0 to |prefixes|
        invariant PassFrom(prefixes, clean, i) == PassFrom(prefixes, start, 0)
        invariant |clean| <= |start| && (if changed then |clean| < |start| else clean == start)
      {
        if prefixes[i] <= clean {
          TrimShrinks(IsSpace, clean[|prefixes[i]|..]);
          clean := Strip(clean[|prefixes[i]|..]);
          changed := true;
        }
      }
      r := clean;
    }
  }

  /* ---------- stop words ---------- */

  /** Replaces every occurrence of a word, found from left to right, by a blank. */
  function Replace(t: string, w: string): string
    requires w != ""
  {
    if t == "" then ""
    else if w <= t then " " + Replace(t[|w|..], w)
    else [t[0]] + Replace(t[1..], w)
  }

  /** The words share no character and contain no blank. */
  ghost predicate Separate(a: string, b: string) {
    && a != "" && b != "" && ' ' !in a && ' ' !in b
    && forall c :: c in a ==> c !in b
  }

  /** A word that shares no character with `a` starts a text exactly if it starts it after `a` was replaced. */
  lemma {:induction false} ReplaceKeepsStart(t: string, a: string, b: string)
    requires a != "" && ' ' !in b && forall c :: c in a ==> c !in b
    ensures b <= Replace(t, a) <==> b <= t
  {
    if b != "" && t != "" {
      if a <= t {
        assert a[0] in a && b[0] in b;
        assert b[0] != t[0] && b[0] != ' ' && Replace(t, a)[0] == ' ';
      } else {
        ReplaceKeepsStart(t[1..], a, b[1..]);
        var r := Replace(t[1..], a);
        assert b <= [t[0]] + r <==> b[0] == t[0] && b[1..] <= r by { StartsWith(b, t[0], r); }
        StartsWith(b, t[0], t[1..]);
        assert t == [t[0]] + t[1..];
      }
    }
  }

  lemma StartsWith(b: string, x: char, r: string)
    requires b != ""
    ensures b <= [x] + r <==> b[0] == x && b[1..] <= r
  {
    var s := [x] + r;
    assert s[1..] == r;
    if b[0] == x && b[1..] <= r { assert b == [x] + b[1..] && s == b + r[|b| - 1..]; }
    if b <= s { assert b[1..] == s[1..|b|] == r[..|b| - 1]; }
  }

  /** Replacing `b` passes over a stretch that shares no character with it. */
  lemma {:induction false} ReplaceSkips(a: string, rest: string, b: string)
    requires b != "" && forall c :: c in a ==> c !in b
    ensures Replace(a + rest, b) == a + Replace(rest, b)
  {
    if a == "" {
      assert a + rest == rest;
    } else {
      var t := a + rest;
      assert t[0] == a[0] && a[0] in a && b[0] in b;
      assert t[1..] == a[1..] + rest;
      ReplaceSkips(a[1..], rest, b);
      assert a == [a[0]] + a[1..];
      assert [a[0]] + (a[1..] + Replace(rest, b)) == a + Replace(rest, b);
    }
  }

  lemma {:induction false} ReplaceCommutes(t: string, a: string, b: string)
    requires Separate(a, b)
    ensures Replace(Replace(t, a), b) == Replace(Replace(t, b), a)
    decreases |t|
  {
    if t != "" {
      if a <= t {
        WordFirst(t, a, b);
      } else if b <= t {
        WordFirst(t, b, a);
      } else {
        ReplaceKeepsStart(t, a, b);
        ReplaceKeepsStart(t, b, a);
        ReplaceCommutes(t[1..], a, b);
        var x, y := Replace(t, a), Replace(t, b);
        assert x[0] == t[0] && x[1..] == Replace(t[1..], a) && y[0] == t[0] && y[1..] == Replace(t[1..], b);
      }
    }
  }

  lemma {:induction false} WordFirst(t: string, a: string, b: string)
    requires Separate(a, b) && a <= t
    ensures Replace(Replace(t, a), b) == Replace(Replace(t, b), a)
    decreases |t|, 0
  {
    var rest := t[|a|..];
    assert t == a + rest;
    ReplaceCommutes(rest, a, b);
    var x := Replace(t, a);
    assert x == " " + Replace(rest, a) && x[1..] == Replace(rest, a);
    assert b[0] in b;
    ReplaceSkips(a, rest, b);
    var y := Replace(t, b);
    assert y == a + Replace(rest, b) && a <= y && y[|a|..] == Replace(rest, b);
  }

  ghost predicate AllSeparate(words: set<string>) {
    (forall a :: a in words ==> a != "") && forall a, b :: a in words && b in words && a != b ==> Separate(a, b)
  }

  /** All words of a set replaced, in some order. */
  ghost function ReplaceAll(t: string, words: set<string>): string
    requires AllSeparate(words)
    decreases |words|
  {
    if words == {} then t else var w :| w in words; ReplaceAll(Replace(t, w), words - {w})
  }

  /** Any word of the set may come first. */
  lemma {:induction false} AnyWordFirst(t: string, words: set<string>, w: string)
    requires AllSeparate(words) && w in words
    ensures ReplaceAll(t, words) == ReplaceAll(Replace(t, w), words - {w})
    decreases |words|
  {
    var v :| v in words && ReplaceAll(t, words) == ReplaceAll(Replace(t, v), words - {v});
    if v != w {
      AnyWordFirst(Replace(t, v), words - {v}, w);
      AnyWordFirst(Replace(t, w), words - {w}, v);
      ReplaceCommutes(t, v, w);
      assert words - {v} - {w} == words - {w} - {v};
    }
  }

  /** The words replaced one after the other. */
  function ReplaceInOrder(t: string, order: seq<string>): string
    requires NonEmpty(order)
    decreases |order|
  {
    if order == [] then t else ReplaceInOrder(Replace(t, order[0]), order[1..])
  }

  /** The iteration order of the set of stop words does not influence the result. */
  lemma {:induction false} OrderIsIrrelevant(t: string, words: set<string>, order: seq<string>)
    requires AllSeparate(words) && (forall w :: w in order <==> w in words)
             && (forall i, j :: 0 <= i < j < |order| ==> order[i] != order[j])
    requires NonEmpty(order)
    ensures ReplaceInOrder(t, order) == ReplaceAll(t, words)
    decreases |order|
  {
    if order == [] {
      assert words == {} by { assert forall w :: w in words ==> w in order; }
    } else {
      var w, rest := order[0], order[1..];
      AnyWordFirst(t, words, w);
      assert forall v :: v in order <==> v == w || v in rest;
      OrderIsIrrelevant(Replace(t, w), words - {w}, rest);
    }
  }

  lemma StopWordsAreSeparate()
    ensures AllSeparate(STOP_WORDS)
  {
    forall a, b | a in STOP_WORDS && b in STOP_WORDS && a != b ensures Separate(a, b) { }
  }

  method RemoveStopWords(t: string, words: set<string>) returns (r: string)
    requires AllSeparate(words)
    ensures r == ReplaceAll(t, words)
  {
    r := t;
    var todo := words;
    while todo != {}
      invariant todo <= words && ReplaceAll(r, todo) == ReplaceAll(t, words)
    {
      var w :| w in todo;
      AnyWordFirst(r, todo, w);
      r := Replace(r, w);
      todo := todo - {w};
    }
  }

  /* ---------- the whole normalisation ---------- */

  /** "".join(s.split()) */
  function Squeeze(s: string): string {
    if s == "" then "" else (if IsSpace(s[0]) then "" else [s[0]]) + Squeeze(s[1..])
  }

  ghost function Normalise(lower: string -> string, redact: string -> string, query: string): string {
    StopWordsAreSeparate();
    Squeeze(ReplaceAll(StripNoise(NOISE_PREFIXES, Collapse(redact(lower(Strip(query))))), STOP_WORDS))
  }

  method NormalizeQuery(lower: string -> string, redact: string -> string, query: string) returns (r: string)
    ensures r == Normalise(lower, redact, query)
  {
    StopWordsAreSeparate();
    var text := Collapse(redact(lower(Strip(query))));
    text := RemoveNoise(NOISE_PREFIXES, text);
    text := RemoveStopWords(text, STOP_WORDS);
    r := Squeeze(text);
  }

  /* ---------- what a normalised query never contains ---------- */

  ghost predicate Lacks(s: string, c: char) {
    c !in s
  }

  lemma {:induction false} CollapseLacks(s: string, c: char)
    requires IsSeparator(c) && c != ' '
    ensures Lacks(Collapse(s), c)
    decreases |s|
  {
    if s != "" {
      if IsSeparator(s[0]) { CollapseLacks(DropSeparators(s[1..]), c); } else { CollapseLacks(s[1..], c); }
    }
  }

  lemma {:induction false} TrimLacks(s: string, c: char)
    requires Lacks(s, c)
    ensures Lacks(Strip(s), c)
  {
    TrimLeftPart(s);
    TrimRightPart(TrimLeft(IsSpace, s));
  }

  lemma TrimLeftPart(s: string)
    ensures forall c :: c in TrimLeft(IsSpace, s) ==> c in s
  {
  }

  lemma {:induction false} TrimRightPart(s: string)
    ensures forall c :: c in TrimRight(IsSpace, s) ==> c in s
  {
    if s != "" && IsSpace(s[|s| - 1]) { TrimRightPart(s[..|s| - 1]); }
  }

  lemma {:induction false} PassLacks(prefixes: seq<string>, t: string, i: nat, c: char)
    requires i <= |prefixes| && Lacks(t, c)
    ensures Lacks(PassFrom(prefixes, t, i), c)
    decreases |prefixes| - i
  {
    if i < |prefixes| {
      if prefixes[i] <= t {
        TrimLacks(t[|prefixes[i]|..], c);
        PassLacks(prefixes, Strip(t[|prefixes[i]|..]), i + 1, c);
      } else {
        PassLacks(prefixes, t, i + 1, c);
      }
    }
  }

  lemma {:induction false} StripNoiseLacks(prefixes: seq<string>, text: string, c: char)
    requires NonEmpty(prefixes) && Lacks(text, c)
    ensures Lacks(StripNoise(prefixes, text), c)
    decreases |text|
  {
    TrimShrinks(IsSpace, text);
    PassShrinks(prefixes, Strip(text), 0);
    TrimLacks(text, c);
    PassLacks(prefixes, Strip(text), 0, c);
    var t := PassFrom(prefixes, Strip(text), 0);
    if t != Strip(text) { StripNoiseLacks(prefixes, t, c); }
  }

  lemma {:induction false} ReplaceLacks(t: string, w: string, c: char)
    requires w != "" && Lacks(t, c) && c != ' '
    ensures Lacks(Replace(t, w), c)
  {
    if t != "" {
      if w <= t { ReplaceLacks(t[|w|..], w, c); } else { ReplaceLacks(t[1..], w, c); }
    }
  }

  lemma {:induction false} ReplaceAllLacks(t: string, words: set<string>, c: char)
    requires AllSeparate(words) && Lacks(t, c) && c != ' '
    ensures Lacks(ReplaceAll(t, words), c)
    decreases |words|
  {
    if words != {} {
      var w :| w in words && ReplaceAll(t, words) == ReplaceAll(Replace(t, w), words - {w});
      ReplaceLacks(t, w, c);
      ReplaceAllLacks(Replace(t, w), words - {w}, c);
    }
  }

  lemma {:induction false} SqueezePart(s: string)
    ensures forall c :: c in Squeeze(s) <==> c in s && !IsSpace(c)
  {
    if s != "" {
      SqueezePart(s[1..]);
      assert forall c :: c in s <==> c == s[0] || c in s[1..];
    }
  }

  /** A normalised query contains no white space and no punctuation; in particular no colon. */
  lemma NormalisedHasNoSeparator(lower: string -> string, redact: string -> string, query: string, c: char)
    requires IsSeparator(c)
    ensures c !in Normalise(lower, redact, query)
  {
    StopWordsAreSeparate();
    var t0 := Collapse(redact(lower(Strip(query))));
    var t1 := StripNoise(NOISE_PREFIXES, t0);
    var t2 := ReplaceAll(t1, STOP_WORDS);
    SqueezePart(t2);
    if !IsSpace(c) {
      CollapseLacks(redact(lower(Strip(query))), c);
      StripNoiseLacks(NOISE_PREFIXES, t0, c);
      ReplaceAllLacks(t1, STOP_WORDS, c);
    }
  }
}
