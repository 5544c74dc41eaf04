/** What the normalisation of a query keeps: its words, without the noise before them and the stop words in them. */
module QueryWords {
  import opened Text
  import opened QueryNormaliser
  import SemanticCache

  /** The longest stretches without a separator, in order. */
  function Words(s: string): (r: seq<string>)
    ensures s != "" && !IsSeparator(s[0]) ==> r != []
  {
    if s == "" then []
    else if IsSeparator(s[0]) then Words(s[1..])
    else if |s| == 1 || IsSeparator(s[1]) then [[s[0]]] + Words(s[1..])
    else
      var r := Words(s[1..]);
      [[s[0]] + r[0]] + r[1..]
  }

  /** Separators are single blanks. */
  ghost predicate SingleBlanks(s: string) {
    && (forall i :: 0 <= i < |s| && IsSeparator(s[i]) ==> s[i] == ' ')
    && (forall i, j :: 0 <= i && j == i + 1 && j < |s| ==> !(s[i] == ' ' && s[j] == ' '))
  }

  /* ---------- punctuation ---------- */

  lemma {:induction false} DropKeepsWords(s: string)
    ensures Words(DropSeparators(s)) == Words(s)
    ensures var r := DropSeparators(s); r != "" ==> !IsSeparator(r[0])
  {
    if s != "" && IsSeparator(s[0]) { DropKeepsWords(s[1..]); }
  }

  lemma BlankFirst(t: string)
    ensures Words(" " + t) == Words(t)
    ensures SingleBlanks(t) && (t != "" ==> t[0] != ' ') ==> SingleBlanks(" " + t)
  {
    var s := " " + t;
    assert s[1..] == t;
    assert forall i :: 0 < i < |s| ==> s[i] == t[i - 1];
  }

  lemma LetterFirst(c: char, t: string, u: string)
    requires !IsSeparator(c) && Words(t) == Words(u) && (t == "" <==> u == "")
    requires t != "" ==> (IsSeparator(t[0]) <==> IsSeparator(u[0]))
    ensures Words([c] + t) == Words([c] + u)
  {
    assert ([c] + t)[1..] == t && ([c] + u)[1..] == u;
    assert t != "" ==> ([c] + t)[1] == t[0] && ([c] + u)[1] == u[0];
  }

  lemma LetterKeepsBlanks(c: char, t: string)
    requires !IsSeparator(c) && SingleBlanks(t)
    ensures SingleBlanks([c] + t)
  {
    var s := [c] + t;
    assert IsSeparator(' ');
    assert forall i :: 0 < i < |s| ==> s[i] == t[i - 1];
  }

  /** Collapsing keeps every word and leaves single blanks between them. */
  lemma {:induction false} CollapseKeepsWords(s: string)
    ensures var r := Collapse(s);
            && Words(r) == Words(s) && SingleBlanks(r) && (r == "" <==> s == "")
            && (s != "" ==> (IsSeparator(r[0]) <==> IsSeparator(s[0])))
    decreases |s|
  {
    if s != "" {
      if IsSeparator(s[0]) {
        var rest := DropSeparators(s[1..]);
        DropKeepsWords(s[1..]);
        CollapseKeepsWords(rest);
        BlankFirst(Collapse(rest));
        assert IsSeparator(' ');
      } else {
        CollapseKeepsWords(s[1..]);
        LetterFirst(s[0], Collapse(s[1..]), s[1..]);
        LetterKeepsBlanks(s[0], Collapse(s[1..]));
        assert s == [s[0]] + s[1..];
      }
    }
  }

  /* ---------- noise ---------- */

  /** `r` is left of `a` when these words are taken off its front, each after trimming. */
  predicate Peeled(a: string, words: seq<string>, r: string)
    decreases |words|
  {
    if words == [] then r == Strip(a)
    else words[0] <= Strip(a) && Peeled(Strip(a)[|words[0]|..], words[1..], r)
  }

  lemma StripTwice(s: string)
    ensures Strip(Strip(s)) == Strip(s)
  {
    SemanticCache.StripEnds(s);
    if Strip(s) != "" { SemanticCache.StripKeeps(Strip(s)); }
  }

  lemma {:induction false} PeeledFurther(a: string, ps: seq<string>, r: string, qs: seq<string>, z: string)
    requires Peeled(a, ps, r) && Peeled(r, qs, z)
    ensures Peeled(a, ps + qs, z)
    decreases |ps|
  {
    if ps == [] {
      assert ps + qs == qs;
      StripTwice(a);
    } else {
      PeeledFurther(Strip(a)[|ps[0]|..], ps[1..], r, qs, z);
      assert (ps + qs)[0] == ps[0] && (ps + qs)[1..] == ps[1..] + qs;
    }
  }

  ghost predicate Among(ps: seq<string>, prefixes: seq<string>) {
    forall p :: p in ps ==> p in prefixes
  }

  lemma {:induction false} PassPeels(prefixes: seq<string>, t: string, i: nat) returns (ps: seq<string>)
    requires i <= |prefixes| && Strip(t) == t
    ensures Among(ps, prefixes) && Peeled(t, ps, PassFrom(prefixes, t, i))
    ensures Strip(PassFrom(prefixes, t, i)) == PassFrom(prefixes, t, i)
    decreases |prefixes| - i
  {
    if i == |prefixes| {
      ps := [];
    } else if prefixes[i] <= t {
      var p := prefixes[i];
      StripTwice(t[|p|..]);
      var rest := PassPeels(prefixes, Strip(t[|p|..]), i + 1);
      var z := PassFrom(prefixes, t, i);
      PeeledFurther(t[|p|..], [], Strip(t[|p|..]), rest, z);
      assert [] + rest == rest;
      ps := [p] + rest;
      assert ps[0] == p && ps[1..] == rest;
    } else {
      ps := PassPeels(prefixes, t, i + 1);
    }
  }

  /** What is taken off are noise prefixes and white space, and nothing else. */
  lemma {:induction false} NoiseIsPeeled(prefixes: seq<string>, text: string) returns (ps: seq<string>)
    requires NonEmpty(prefixes)
    ensures Among(ps, prefixes) && Peeled(text, ps, StripNoise(prefixes, text))
    decreases |text|
  {
    var clean := Strip(text);
    TrimShrinks(IsSpace, text);
    PassShrinks(prefixes, clean, 0);
    StripTwice(text);
    var t := PassFrom(prefixes, clean, 0);
    var first := PassPeels(prefixes, clean, 0);
    PeeledFurther(text, [], clean, first, t);
    assert [] + first == first;
    if t == clean {
      ps := [];
    } else {
      var more := NoiseIsPeeled(prefixes, t);
      PeeledFurther(text, first, t, more, StripNoise(prefixes, t));
      ps := first + more;
    }
  }

  /* ---------- stop words ---------- */

  /** Every word of the set is replaced by a blank, in one pass from left to right. */
  ghost function AtOnce(t: string, words: set<string>): string
    requires AllSeparate(words)
    decreases |t|
  {
    if t == "" then ""
    else if w :| w in words && w <= t then " " + AtOnce(t[|w|..], words)
    else [t[0]] + AtOnce(t[1..], words)
  }

  lemma OnlyOneStarts(t: string, v: string, w: string)
    requires Separate(v, w) && v <= t
    ensures !(w <= t)
  {
    assert v[0] in v && w[0] in w && t[0] == v[0];
  }

  lemma OneWordStarts(t: string, words: set<string>, v: string, w: string)
    requires AllSeparate(words) && v in words && w in words && v <= t && w <= t
    ensures v == w
  {
    if v != w { OnlyOneStarts(t, v, w); }
  }

  lemma AtWord(t: string, words: set<string>, w: string)
    requires AllSeparate(words) && w in words && w <= t
    ensures AtOnce(t, words) == " " + AtOnce(t[|w|..], words)
  {
    forall v | v in words && v <= t ensures v == w { OneWordStarts(t, words, v, w); }
  }

  lemma AtLetter(c: char, t: string, words: set<string>)
    requires AllSeparate(words) && forall w :: w in words ==> !(w <= [c] + t)
    ensures AtOnce([c] + t, words) == [c] + AtOnce(t, words)
  {
    assert ([c] + t)[1..] == t;
  }

  lemma {:induction false} OneWordLess(t: string, words: set<string>, w: string)
    requires AllSeparate(words) && w in words
    ensures AtOnce(Replace(t, w), words - {w}) == AtOnce(t, words)
    decreases |t|
  {
    if t != "" {
      if w <= t {
        OneWordLess(t[|w|..], words, w);
        AtWord(t, words, w);
        var r := Replace(t[|w|..], w);
        forall v | v in words - {w} ensures !(v <= [' '] + r) { assert Separate(v, w) && v[0] in v; }
        AtLetter(' ', r, words - {w});
      } else if v :| v in words && v <= t {
        var rest := t[|v|..];
        assert t == v + rest && Separate(v, w);
        OneWordLess(rest, words, w);
        ReplaceSkips(v, rest, w);
        AtWord(t, words, v);
        AtWord(Replace(t, w), words - {w}, v);
        assert Replace(t, w)[|v|..] == Replace(rest, w);
      } else {
        OneWordLess(t[1..], words, w);
        forall v | v in words - {w} ensures !(v <= Replace(t, w)) {
          assert Separate(v, w);
          ReplaceKeepsStart(t, w, v);
        }
        AtLetter(t[0], Replace(t[1..], w), words - {w});
        assert t == [t[0]] + t[1..];
        AtLetter(t[0], t[1..], words);
      }
    }
  }

  lemma {:induction false} NoWords(t: string)
    ensures AtOnce(t, {}) == t
  {
    if t != "" {
      NoWords(t[1..]);
      assert t == [t[0]] + t[1..];
      AtLetter(t[0], t[1..], {});
    }
  }

  /** Replacing the words one after the other, in whatever order, replaces all of them at once. */
  lemma {:induction false} ReplacedAtOnce(t: string, words: set<string>)
    requires AllSeparate(words)
    ensures ReplaceAll(t, words) == AtOnce(t, words)
    decreases |words|
  {
    if words == {} {
      NoWords(t);
    } else {
      var w :| w in words && ReplaceAll(t, words) == ReplaceAll(Replace(t, w), words - {w});
      ReplacedAtOnce(Replace(t, w), words - {w});
      OneWordLess(t, words, w);
    }
  }

  /* ---------- the whole normalisation ---------- */

  /** Where white space is the only separator, squeezing joins the words. */
  lemma {:induction false} SqueezeJoinsWords(s: string)
    requires forall i :: 0 <= i < |s| && IsSeparator(s[i]) ==> IsSpace(s[i])
    ensures Squeeze(s) == Join(Words(s))
  {
    if s != "" {
      SqueezeJoinsWords(s[1..]);
      if !IsSeparator(s[0]) && |s| > 1 && !IsSeparator(s[1]) {
        var r := Words(s[1..]);
        assert Join(r) == r[0] + Join(r[1..]);
      }
    }
  }

  /** The normalised query joins the words of the redacted, lower-cased query, from which noise prefixes were taken off
      the front until none was left, and every stop word in what remains. */
  lemma NormaliseKeepsWords(lower: string -> string, redact: string -> string, query: string)
    returns (text: string, noise: seq<string>, rest: string)
    ensures Words(text) == Words(redact(lower(Strip(query)))) && SingleBlanks(text)
    ensures Among(noise, NOISE_PREFIXES) && Peeled(text, noise, rest)
    ensures forall p :: p in NOISE_PREFIXES ==> !(p <= rest)
    ensures AllSeparate(STOP_WORDS)
    ensures Normalise(lower, redact, query) == Join(Words(AtOnce(rest, STOP_WORDS)))
  {
    StopWordsAreSeparate();
    text := Collapse(redact(lower(Strip(query))));
    CollapseKeepsWords(redact(lower(Strip(query))));
    rest := StripNoise(NOISE_PREFIXES, text);
    noise := NoiseIsPeeled(NOISE_PREFIXES, text);
    NoNoiseLeft(NOISE_PREFIXES, text);
    ReplacedAtOnce(rest, STOP_WORDS);
    var t := ReplaceAll(rest, STOP_WORDS);
    forall c | IsSeparator(c) && c != ' ' ensures c !in t { OnlyBlanksLeft(text, NOISE_PREFIXES, STOP_WORDS, c); }
    SqueezeJoinsWords(t);
  }

  lemma OnlyBlanksLeft(text: string, prefixes: seq<string>, words: set<string>, c: char)
    requires NonEmpty(prefixes) && AllSeparate(words) && SingleBlanks(text) && IsSeparator(c) && c != ' '
    ensures c !in ReplaceAll(StripNoise(prefixes, text), words)
  {
    StripNoiseLacks(prefixes, text, c);
    ReplaceAllLacks(StripNoise(prefixes, text), words, c);
  }
}
