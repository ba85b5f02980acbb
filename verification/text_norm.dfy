/**
 * Text normalisation as both scrapers write it:
 *   ' '.join(text.split())[:200000]
 * `Words` is Python's `str.split()` with no separator, `Join` is `' '.join`,
 * `Cap` is the slice `[:200000]` (a cut on code points, not on words) and
 * `Blank` is the test `not s.strip()`.
 */
module TextNorm {

  /** The hard cap on the length of scraped content. */
  const ContentCap: nat := 200000

  /** Python's notion of whitespace for `str.split()`, `str.strip()` and the
      regular-expression class `\s`: the characters of bidirectional type
      WS, B or S and the space separators. */
  predicate IsSpace(c: char)
  {
    c == ' ' || ('\t' <= c <= '\r') || ('\U{1C}' <= c <= '\U{1F}')
    || c == '\U{85}' || c == '\U{A0}' || c == '\U{1680}'
    || ('\U{2000}' <= c <= '\U{200A}') || c == '\U{2028}' || c == '\U{2029}'
    || c == '\U{202F}' || c == '\U{205F}' || c == '\U{3000}'
  }

  /** A token of `str.split()`: a non-empty run of non-whitespace. */
  predicate IsWord(w: string)
  {
    |w| > 0 && forall i :: 0 <= i < |w| ==> !IsSpace(w[i])
  }

  predicate AllWords(ws: seq<string>)
  {
    forall i :: 0 <= i < |ws| ==> IsWord(ws[i])
  }

  /** `not s.strip()`: the string is empty or whitespace only. */
  predicate Blank(s: string)
  {
    forall i :: 0 <= i < |s| ==> IsSpace(s[i])
  }

  /** Length of the leading run of non-whitespace characters. */
  function WordLen(s: string): (k: nat)
    ensures k <= |s|
    ensures forall i :: 0 <= i < k ==> !IsSpace(s[i])
    ensures k == |s| || IsSpace(s[k])
  {
    if |s| == 0 || IsSpace(s[0]) then 0 else 1 + WordLen(s[1..])
  }

  /** `s.split()`: the maximal runs of non-whitespace, left to right. */
  function Words(s: string): (ws: seq<string>)
    ensures AllWords(ws)
    decreases |s|
  {
    if |s| == 0 then []
    else if IsSpace(s[0]) then Words(s[1..])
    else
      var k := WordLen(s);
      [s[..k]] + Words(s[k..])
  }

  /** `' '.join(ws)`. */
  function Join(ws: seq<string>): string
  {
    if |ws| == 0 then ""
    else if |ws| == 1 then ws[0]
    else ws[0] + " " + Join(ws[1..])
  }

  /** The slice `t[:200000]`. */
  function Cap(t: string): (r: string)
    ensures |r| == if |t| <= ContentCap then |t| else ContentCap
    ensures r == t[..|r|]
  {
    if |t| <= ContentCap then t else t[..ContentCap]
  }

  /** `' '.join(s.split())`, before the cap. */
  function Normalise(s: string): string
  {
    Join(Words(s))
  }

  function SumLen(ws: seq<string>): nat
  {
    if |ws| == 0 then 0 else |ws[0]| + SumLen(ws[1..])
  }

  // Shape of normalised text.

  /** The only whitespace character present is the plain space. */
  predicate SpacesOnly(t: string)
  {
    forall i :: 0 <= i < |t| && IsSpace(t[i]) ==> t[i] == ' '
  }

  predicate NoDoubleSpace(t: string)
  {
    forall i, j :: 0 <= i < |t| && j == i + 1 && j < |t| ==> !(t[i] == ' ' && t[j] == ' ')
  }

  predicate NoLeadingSpace(t: string)
  {
    |t| > 0 ==> !IsSpace(t[0])
  }

  predicate NoTrailingSpace(t: string)
  {
    |t| > 0 ==> !IsSpace(t[|t| - 1])
  }

  predicate Normalised(t: string)
  {
    SpacesOnly(t) && NoDoubleSpace(t) && NoLeadingSpace(t) && NoTrailingSpace(t)
  }

  lemma WordLenUnique(s: string, k: nat)
    requires k <= |s|
    requires forall i :: 0 <= i < k ==> !IsSpace(s[i])
    requires k == |s| || IsSpace(s[k])
    ensures WordLen(s) == k
  {
  }

  /** Splitting distributes over a whitespace separator:
      `(a + c + b).split() == a.split() + b.split()` for a whitespace `c`. */
  lemma {:induction false} WordsSplitAt(a: string, c: char, b: string)
    requires IsSpace(c)
    ensures Words(a + [c] + b) == Words(a) + Words(b)
    decreases |a|
  {
    var t := a + [c] + b;
    if |a| == 0 {
      assert t[1..] == b;
    } else if IsSpace(a[0]) {
      assert t[1..] == a[1..] + [c] + b;
      WordsSplitAt(a[1..], c, b);
    } else {
      var k := WordLen(a);
      assert forall i :: 0 <= i < k ==> t[i] == a[i];
      WordLenUnique(t, k);
      assert t[..k] == a[..k];
      assert t[k..] == a[k..] + [c] + b;
      WordsSplitAt(a[k..], c, b);
    }
  }

  /** A leading run of whitespace does not change the split. */
  lemma WordsAfterSpace(c: char, b: string)
    requires IsSpace(c)
    ensures Words([c] + b) == Words(b)
  {
    assert ([c] + b)[1..] == b;
  }

  lemma WordsOfWord(w: string)
    requires IsWord(w)
    ensures Words(w) == [w]
  {
    WordLenUnique(w, |w|);
    assert w[..|w|] == w;
    assert w[|w|..] == [];
  }

  /** `Blank(s)` holds exactly when `s.split()` is empty. */
  lemma {:induction false} BlankIffNoWords(s: string)
    ensures Blank(s) <==> Words(s) == []
    decreases |s|
  {
    if |s| > 0 && IsSpace(s[0]) {
      BlankIffNoWords(s[1..]);
      assert Blank(s) <==> Blank(s[1..]) by {
        if Blank(s[1..]) {
          forall i | 0 <= i < |s| ensures IsSpace(s[i]) {
            if i > 0 { assert s[i] == s[1..][i - 1]; }
          }
        }
      }
    }
  }

  /** The length of `' '.join(ws)`: the lengths of the parts plus one
      separator between each neighbouring pair. */
  lemma {:induction false} JoinLength(ws: seq<string>)
    requires |ws| > 0
    ensures |Join(ws)| == SumLen(ws) + |ws| - 1
  {
    if |ws| > 1 {
      JoinLength(ws[1..]);
    }
  }

  /** Where the `i`-th part starts in `' '.join(ws)`: after the parts before
      it and one separator for each of them. */
  function Offset(ws: seq<string>, i: nat): nat
    requires i <= |ws|
  {
    SumLen(ws[..i]) + i
  }

  /** Layout of `' '.join(ws)`: each part appears, in order, at its offset,
      and is followed by a single ' ' unless it is the last. */
  lemma {:induction false} JoinPiece(ws: seq<string>, i: nat)
    requires i < |ws|
    ensures Offset(ws, i) + |ws[i]| <= |Join(ws)|
    ensures Join(ws)[Offset(ws, i)..Offset(ws, i) + |ws[i]|] == ws[i]
    ensures i + 1 < |ws| ==> Offset(ws, i) + |ws[i]| < |Join(ws)| && Join(ws)[Offset(ws, i) + |ws[i]|] == ' '
    decreases i
  {
    var j := Join(ws);
    if |ws| == 1 {
      assert ws[..0] == [];
    } else {
      var rest := Join(ws[1..]);
      assert j == ws[0] + " " + rest;
      if i == 0 {
        assert ws[..0] == [];
      } else {
        JoinPiece(ws[1..], i - 1);
        assert ws[..i][1..] == ws[1..][..i - 1];
        var o := Offset(ws[1..], i - 1);
        assert Offset(ws, i) == |ws[0]| + 1 + o;
        assert j[|ws[0]| + 1..] == rest;
        assert j[Offset(ws, i)..Offset(ws, i) + |ws[i]|] == rest[o..o + |ws[i]|];
      }
    }
  }

  lemma JoinOfWordsNonEmpty(ws: seq<string>)
    requires AllWords(ws) && |ws| > 0
    ensures |Join(ws)| > 0
  {
    JoinLength(ws);
    assert IsWord(ws[0]);
  }

  /** Round trip: splitting a space-joined sequence of words gives the words back. */
  lemma {:induction false} WordsOfJoin(ws: seq<string>)
    requires AllWords(ws)
    ensures Words(Join(ws)) == ws
  {
    if |ws| == 1 {
      WordsOfWord(ws[0]);
    } else if |ws| > 1 {
      assert AllWords(ws[1..]) by {
        forall i | 0 <= i < |ws| - 1 ensures IsWord(ws[1..][i]) {
          assert ws[1..][i] == ws[i + 1];
        }
      }
      assert IsWord(ws[0]);
      assert Join(ws) == ws[0] + [' '] + Join(ws[1..]);
      WordsSplitAt(ws[0], ' ', Join(ws[1..]));
      WordsOfWord(ws[0]);
      WordsOfJoin(ws[1..]);
      assert ws == [ws[0]] + ws[1..];
    }
  }

  /** Normalisation without the cap is idempotent. */
  lemma NormaliseIdempotent(s: string)
    ensures Normalise(Normalise(s)) == Normalise(s)
  {
    WordsOfJoin(Words(s));
  }

  /** `' '.join` of words has the normalised shape: no leading or trailing
      whitespace, no whitespace other than ' ', no two adjacent spaces. */
  lemma {:induction false} JoinNormalised(ws: seq<string>)
    requires AllWords(ws)
    ensures Normalised(Join(ws))
  {
    if |ws| == 1 {
      assert IsWord(ws[0]);
    } else if |ws| > 1 {
      var w := ws[0];
      assert IsWord(w);
      var rest := ws[1..];
      assert AllWords(rest) by {
        forall i | 0 <= i < |rest| ensures IsWord(rest[i]) {
          assert rest[i] == ws[i + 1];
        }
      }
      JoinNormalised(rest);
      JoinOfWordsNonEmpty(rest);
      var r := Join(rest);
      var t := Join(ws);
      assert t == w + " " + r;
      assert forall i :: 0 <= i < |w| ==> t[i] == w[i];
      assert t[|w|] == ' ';
      assert forall i :: |w| < i < |t| ==> t[i] == r[i - |w| - 1];
      assert SpacesOnly(t) by {
        forall i | 0 <= i < |t| && IsSpace(t[i]) ensures t[i] == ' ' {
          if |w| < i { assert r[i - |w| - 1] == t[i]; }
        }
      }
      assert NoDoubleSpace(t) by {
        forall i, j | 0 <= i && j == i + 1 && j < |t| ensures !(t[i] == ' ' && t[j] == ' ') {
          if j < |w| {
            assert !IsSpace(w[i]);
          } else if j == |w| {
            assert !IsSpace(w[i]);
          } else if i == |w| {
            assert t[j] == r[0];
          } else {
            assert t[i] == r[i - |w| - 1] && t[j] == r[j - |w| - 1];
          }
        }
      }
      assert t[|t| - 1] == r[|r| - 1];
    }
  }

  /** A suffix of normalised text that starts on a non-space is normalised. */
  lemma NormalisedSuffix(t: string, k: nat)
    requires Normalised(t) && k < |t| && !IsSpace(t[k])
    ensures Normalised(t[k..])
  {
    var u := t[k..];
    assert forall i :: 0 <= i < |u| ==> u[i] == t[k + i];
    assert NoDoubleSpace(u) by {
      forall i, j | 0 <= i && j == i + 1 && j < |u| ensures !(u[i] == ' ' && u[j] == ' ') {
        assert u[i] == t[k + i] && u[j] == t[k + j];
      }
    }
  }

  /** A word followed by a whitespace character: the split takes the word
      and continues after that character. */
  lemma WordsAtGap(t: string, k: nat)
    requires 0 < k < |t| && !IsSpace(t[0]) && WordLen(t) == k
    ensures Words(t) == [t[..k]] + Words(t[k + 1..])
  {
    assert t[k..] == [t[k]] + t[k + 1..];
    WordsAfterSpace(t[k], t[k + 1..]);
  }

  lemma JoinCons(w: string, ws: seq<string>)
    requires |ws| > 0
    ensures Join([w] + ws) == w + " " + Join(ws)
  {
    assert ([w] + ws)[1..] == ws;
  }

  /** Already-normalised text is a fixed point of normalisation. */
  lemma {:induction false} NormalisedIsFixed(t: string)
    requires Normalised(t)
    ensures Normalise(t) == t
    decreases |t|
  {
    if |t| > 0 {
      var k := WordLen(t);
      if k == |t| {
        assert IsWord(t);
        WordsOfWord(t);
      } else {
        NormalisedGap(t, k);
        NormalisedSuffix(t, k + 1);
        NormalisedIsFixed(t[k + 1..]);
        FixedAfterGap(t, k);
      }
    }
  }

  /** A word, one space, then text that normalisation leaves alone: the
      whole is left alone too. */
  lemma FixedAfterGap(t: string, k: nat)
    requires 0 < k && k + 1 < |t| && !IsSpace(t[0]) && WordLen(t) == k && t[k] == ' '
    requires Normalise(t[k + 1..]) == t[k + 1..]
    ensures Normalise(t) == t
  {
    var w, u := t[..k], t[k + 1..];
    WordsAtGap(t, k);
    var W := Words(u);
    assert |Join(W)| > 0;
    JoinCons(w, W);
    SplitAtGap(t, k);
    calc {
      Normalise(t);
      Join([w] + W);
      w + " " + Join(W);
      w + " " + u;
      t;
    }
  }

  lemma SplitAtGap(t: string, k: nat)
    requires k < |t| && t[k] == ' '
    ensures t == t[..k] + " " + t[k + 1..]
  {
    assert t == t[..k] + [t[k]] + t[k + 1..];
  }

  /** In normalised text the first word ends at a single ' ' followed by more text. */
  lemma NormalisedGap(t: string, k: nat)
    requires Normalised(t) && 0 < |t| && k == WordLen(t) && k < |t|
    ensures 0 < k && k + 1 < |t| && t[k] == ' ' && !IsSpace(t[k + 1])
  {
    assert IsSpace(t[k]);
    assert t[k] == ' ';
    assert k != |t| - 1;
    assert !(t[k] == ' ' && t[k + 1] == ' ');
  }

  /** The normalised text has the normalised shape, and it is empty exactly
      when the input is blank. */
  lemma NormaliseShape(s: string)
    ensures Normalised(Normalise(s))
    ensures Normalise(s) == [] <==> Blank(s)
  {
    JoinNormalised(Words(s));
    BlankIffNoWords(s);
    if Words(s) != [] {
      JoinOfWordsNonEmpty(Words(s));
    }
  }

  /** The cap keeps the prefix-closed parts of the shape, and it is the only
      source of a trailing space: re-normalising the capped text either
      leaves it as it is or drops exactly that one trailing space. */
  lemma CappedShape(t: string)
    requires Normalised(t)
    ensures var c := Cap(t);
      && SpacesOnly(c) && NoDoubleSpace(c) && NoLeadingSpace(c)
      && (NoTrailingSpace(c) ==> Normalise(c) == c)
      && (!NoTrailingSpace(c) ==>
            |t| > ContentCap && c[|c| - 1] == ' ' && Normalise(c) == c[..|c| - 1])
  {
    var c := Cap(t);
    assert forall i :: 0 <= i < |c| ==> c[i] == t[i];
    assert NoDoubleSpace(c) by {
      forall i, j | 0 <= i && j == i + 1 && j < |c| ensures !(c[i] == ' ' && c[j] == ' ') {
        assert c[i] == t[i] && c[j] == t[j];
      }
    }
    if NoTrailingSpace(c) {
      NormalisedIsFixed(c);
    } else {
      assert |c| >= 2;
      var u := c[..|c| - 1];
      assert forall i :: 0 <= i < |u| ==> u[i] == c[i];
      assert c[|c| - 2] == u[|u| - 1];
      assert NoDoubleSpace(u) by {
        forall i, j | 0 <= i && j == i + 1 && j < |u| ensures !(u[i] == ' ' && u[j] == ' ') {
          assert u[i] == c[i] && u[j] == c[j];
        }
      }
      NormalisedIsFixed(u);
      assert c == u + [' '] + [];
      WordsSplitAt(u, ' ', []);
      assert Words(c) == Words(u);
    }
  }

  /** One word of 199,999 letters, a space and one more word. */
  function CutWitness(): string
  {
    seq(ContentCap - 1, _ => 'a') + " b"
  }

  /** The cut is not word-aware: on this input it lands just after the
      separator, the output ends in a space, and normalising the output
      again shortens it. */
  lemma CutLeavesTrailingSpace()
    ensures var c := Cap(Normalise(CutWitness()));
      |c| == ContentCap && c[ContentCap - 1] == ' ' && Normalise(c) != c
  {
    var a := seq(ContentCap - 1, _ => 'a');
    WitnessIsNormalised(a);
    var c := Cap(CutWitness());
    assert c == a + " ";
    TrailingSpaceDropped(a);
  }

  lemma WitnessIsNormalised(a: string)
    requires a == seq(ContentCap - 1, _ => 'a')
    ensures CutWitness() == a + " b" && Normalise(CutWitness()) == CutWitness()
  {
    assert IsWord(a);
    assert IsWord("b");
    var w := CutWitness();
    assert w == a + [' '] + "b";
    WordsSplitAt(a, ' ', "b");
    WordsOfWord(a);
    WordsOfWord("b");
    assert Words(w) == [a, "b"];
    assert Join([a, "b"]) == a + " " + Join(["b"]);
  }

  /** A single word followed by one space normalises to the word. */
  lemma TrailingSpaceDropped(a: string)
    requires IsWord(a)
    ensures Normalise(a + " ") == a
  {
    assert a + " " == a + [' '] + [];
    WordsSplitAt(a, ' ', []);
    WordsOfWord(a);
  }
}
