/** The spaced-text normaliser of the shield and the printer of the spear it undoes
    (packages/atanor_ecosystem/adversarial_coevo.py). */
module TextNormaliser {
  /** How many (non-space, space) pairs the text starts with. */
  function Run(s: string): (r: nat)
    ensures 2 * r <= |s|
  {
    if |s| >= 2 && s[0] != ' ' && s[1] == ' ' then 1 + Run(s[2..]) else 0
  }

  /** The letters of the first `m` pairs. */
  function Letters(s: string, m: nat): (r: string)
    requires m <= Run(s)
    ensures |r| == m && ' ' !in r
    ensures m > 0 ==> r[0] == s[0]
  {
    if m == 0 then [] else [s[0]] + Letters(s[2..], m - 1)
  }

  /** The space branch: a run of three pairs or more is joined into a word and one space. */
  function Norm(s: string): string
    decreases |s|
  {
    if s == [] then []
    else if Run(s) >= 3 then Letters(s, Run(s)) + ([' '] + Norm(s[2 * Run(s)..]))
    else [s[0]] + Norm(s[1..])
  }

  function Join(parts: seq<string>): string {
    if parts == [] then [] else Join(parts[..|parts| - 1]) + parts[|parts| - 1]
  }

  lemma {:induction false} LettersGrow(s: string, m: nat)
    requires m + 1 <= Run(s)
    ensures 2 * m + 1 < |s| && Letters(s, m + 1) == Letters(s, m) + [s[2 * m]]
  {
    if m > 0 {
      LettersGrow(s[2..], m - 1);
      assert s[2..][2 * (m - 1)] == s[2 * m];
    }
  }

  lemma {:induction false} RunAfter(s: string, m: nat)
    requires m <= Run(s)
    ensures Run(s) == m + Run(s[2 * m..])
  {
    if m > 0 {
      RunAfter(s[2..], m - 1);
      assert s[2..][2 * (m - 1)..] == s[2 * m..];
    } else {
      assert s[0..] == s;
    }
  }

  lemma JoinOneMore(pieces: seq<string>, piece: string)
    ensures Join(pieces + [piece]) == Join(pieces) + piece
  {
    assert (pieces + [piece])[..|pieces|] == pieces;
  }

  /** The inner loop: collect single characters as long as a space follows each. */
  method TakeRun(s: string, i: nat) returns (j: nat, run: string)
    requires i <= |s|
    ensures |run| == Run(s[i..]) && run == Letters(s[i..], |run|) && j == i + 2 * |run|
  {
    ghost var rest := s[i..];
    j, run := i, [];
    while j + 1 < |s| && s[j + 1] == ' ' && s[j] != ' '
      invariant j == i + 2 * |run| && |run| <= Run(rest)
      invariant run == Letters(rest, |run|) && Run(rest) == |run| + Run(rest[2 * |run|..])
    {
      ghost var here := rest[2 * |run|..];
      assert here[0] == s[j] && here[1] == s[j + 1];
      LettersGrow(rest, |run|);
      RunAfter(rest, |run| + 1);
      run := run + [s[j]];
      j := j + 2;
    }
    ghost var here := rest[2 * |run|..];
    assert here == s[j..];
  }

  lemma JoinRun(done: string, s: string, i: nat, j: nat, run: string)
    requires i < |s| && |run| >= 3 && |run| == Run(s[i..]) && run == Letters(s[i..], |run|) && j == i + 2 * |run|
    ensures j <= |s| && (done + (run + [' '])) + Norm(s[j..]) == done + Norm(s[i..])
  {
    assert s[i..][2 * |run|..] == s[j..];
    assert Norm(s[i..]) == run + ([' '] + Norm(s[j..]));
  }

  lemma JoinChar(done: string, s: string, i: nat)
    requires i < |s| && Run(s[i..]) < 3
    ensures (done + [s[i]]) + Norm(s[i + 1..]) == done + Norm(s[i..])
  {
    assert s[i..][1..] == s[i + 1..];
    assert Norm(s[i..]) == [s[i]] + Norm(s[i + 1..]);
  }

  /** `_normalize` with `norm_space` alone: two index loops and a list of pieces. */
  method Normalize(s: string) returns (r: string)
    ensures r == Norm(s)
  {
    var pieces: seq<string>, i := [], 0;
    assert s[0..] == s;
    while i < |s|
      invariant 0 <= i <= |s|
      invariant Join(pieces) + Norm(s[i..]) == Norm(s)
    {
      if i + 1 < |s| && s[i] != ' ' && s[i + 1] == ' ' {
        var j, run := TakeRun(s, i);
        if |run| >= 3 {
          JoinOneMore(pieces, run + [' ']);
          JoinRun(Join(pieces), s, i, j, run);
          pieces := pieces + [run + [' ']];
          i := j;
          continue;
        }
      }
      JoinOneMore(pieces, [s[i]]);
      JoinChar(Join(pieces), s, i);
      pieces := pieces + [[s[i]]];
      i := i + 1;
    }
    r := Join(pieces);
  }

  // ----------------------------------------------------------- what is kept

  function NonSpaces(s: string): string {
    if s == [] then [] else (if s[0] == ' ' then [] else [s[0]]) + NonSpaces(s[1..])
  }

  lemma {:induction false} NonSpacesAppend(a: string, b: string)
    ensures NonSpaces(a + b) == NonSpaces(a) + NonSpaces(b)
  {
    if a == [] {
      assert a + b == b;
    } else {
      assert (a + b)[1..] == a[1..] + b;
      NonSpacesAppend(a[1..], b);
    }
  }

  lemma {:induction false} LettersAreNonSpaces(s: string, m: nat)
    requires m <= Run(s)
    ensures NonSpaces(s) == Letters(s, m) + NonSpaces(s[2 * m..])
  {
    if m > 0 {
      LettersAreNonSpaces(s[2..], m - 1);
      assert s[2..][2 * (m - 1)..] == s[2 * m..];
      assert s[1..][1..] == s[2..];
    } else {
      assert s[0..] == s;
    }
  }

  lemma {:induction false} AllNonSpaces(w: string)
    requires ' ' !in w
    ensures NonSpaces(w) == w
  {
    if w != [] {
      AllNonSpaces(w[1..]);
      assert w == [w[0]] + w[1..];
    }
  }

  /** No visible character is lost, added or moved, and the text never grows. */
  lemma {:induction false} NormKeepsText(s: string)
    ensures NonSpaces(Norm(s)) == NonSpaces(s)
    ensures |Norm(s)| <= |s|
    decreases |s|
  {
    if s != [] {
      if Run(s) >= 3 {
        NormKeepsText(s[2 * Run(s)..]);
        JoinKeepsText(s, Run(s), Norm(s[2 * Run(s)..]));
      } else {
        NormKeepsText(s[1..]);
        assert Norm(s)[1..] == Norm(s[1..]);
      }
    }
  }

  lemma WordAndSpace(w: string, y: string)
    requires ' ' !in w
    ensures NonSpaces(w + ([' '] + y)) == w + NonSpaces(y)
  {
    SpaceFirst(y);
    NonSpacesAppend(w, [' '] + y);
    AllNonSpaces(w);
  }

  lemma SpaceFirst(y: string)
    ensures NonSpaces([' '] + y) == NonSpaces(y)
  {
    assert ([' '] + y)[1..] == y;
  }

  lemma JoinKeepsText(s: string, m: nat, y: string)
    requires m <= Run(s) && NonSpaces(y) == NonSpaces(s[2 * m..])
    ensures NonSpaces(Letters(s, m) + ([' '] + y)) == NonSpaces(s)
  {
    WordAndSpace(Letters(s, m), y);
    LettersAreNonSpaces(s, m);
  }

  // ------------------------------------------------------------ fixed points

  /** Three single characters in a row, each with a space after it, start at `i`. */
  predicate SpacedAt(s: string, i: nat) {
    && i + 5 < |s| && s[i] != ' ' && s[i + 1] == ' ' && s[i + 2] != ' ' && s[i + 3] == ' '
    && s[i + 4] != ' ' && s[i + 5] == ' '
  }

  predicate HasSpaced(s: string) {
    exists i | 0 <= i < |s| :: SpacedAt(s, i)
  }

  lemma SpacedMeansRun(s: string)
    ensures SpacedAt(s, 0) <==> Run(s) >= 3
  {
    if |s| >= 2 && s[0] != ' ' && s[1] == ' ' {
      var t := s[2..];
      if |t| >= 2 && t[0] != ' ' && t[1] == ' ' {
        var u := t[2..];
        assert Run(u) >= 1 <==> |u| >= 2 && u[0] != ' ' && u[1] == ' ';
      }
    }
  }

  lemma HasSpacedStep(s: string)
    requires s != []
    ensures HasSpaced(s) <==> Run(s) >= 3 || HasSpaced(s[1..])
  {
    SpacedMeansRun(s);
    forall i: nat ensures i + 1 < |s| ==> (SpacedAt(s, i + 1) <==> SpacedAt(s[1..], i)) {
    }
    if HasSpaced(s) {
      var i :| 0 <= i < |s| && SpacedAt(s, i);
      if i > 0 { assert SpacedAt(s[1..], i - 1); }
    }
    if HasSpaced(s[1..]) {
      var i :| 0 <= i < |s[1..]| && SpacedAt(s[1..], i);
      assert SpacedAt(s, i + 1);
    }
  }

  /** Text is left alone exactly when it holds no spaced-out triple; otherwise it gets shorter. */
  lemma {:induction false} NormFixesExactly(s: string)
    ensures Norm(s) == s <==> !HasSpaced(s)
    ensures HasSpaced(s) ==> |Norm(s)| < |s|
    decreases |s|
  {
    if s != [] {
      HasSpacedStep(s);
      if Run(s) >= 3 {
        NormKeepsText(s[2 * Run(s)..]);
      } else {
        NormFixesExactly(s[1..]);
        assert Norm(s)[1..] == Norm(s[1..]);
        assert s == [s[0]] + s[1..];
      }
    }
  }

  /** Normalising never lengthens the run a text starts with. */
  lemma {:induction false} NormRun(s: string)
    ensures Run(Norm(s)) <= Run(s)
    ensures Run(s) >= 3 ==> Run(Norm(s)) == 0
    ensures s != [] ==> Norm(s) != [] && Norm(s)[0] == s[0]
    decreases |s|
  {
    if s != [] {
      if Run(s) >= 3 {
        LettersGrow(s, 1);
        var word := Letters(s, Run(s));
        assert Norm(s)[0] == word[0] && Norm(s)[1] == word[1] && word[1] in word;
      } else {
        NormRun(s[1..]);
        assert Norm(s)[1..] == Norm(s[1..]);
        if |s| >= 2 && s[0] != ' ' && s[1] == ' ' {
          NormRun(s[2..]);
          assert s[1..][1..] == s[2..];
          assert Norm(s[1..]) == [' '] + Norm(s[2..]);
          assert Norm(s)[2..] == Norm(s[2..]);
        }
      }
    }
  }

  lemma {:induction false} WordThenClean(w: string, y: string)
    requires ' ' !in w && !HasSpaced(y) && Run(y) == 0
    ensures !HasSpaced(w + ([' '] + y))
  {
    var s := w + ([' '] + y);
    HasSpacedStep(s);
    if w == [] {
      assert s[1..] == y;
    } else {
      assert s[1..] == w[1..] + ([' '] + y);
      WordThenClean(w[1..], y);
      if |w| == 1 {
        assert s[2..] == y;
      } else {
        assert s[1] == w[1] && w[1] in w;
      }
    }
  }

  lemma {:induction false} NormIsClean(s: string)
    ensures !HasSpaced(Norm(s))
    decreases |s|
  {
    if s != [] {
      if Run(s) >= 3 {
        var m := Run(s);
        RunAfter(s, m);
        NormRun(s[2 * m..]);
        NormIsClean(s[2 * m..]);
        WordThenClean(Letters(s, m), Norm(s[2 * m..]));
      } else {
        NormIsClean(s[1..]);
        NormRun(s);
        HasSpacedStep(Norm(s));
        assert Norm(s)[1..] == Norm(s[1..]);
      }
    }
  }

  /** Normalising twice is normalising once. */
  lemma NormIdempotent(s: string)
    ensures Norm(Norm(s)) == Norm(s)
  {
    NormIsClean(s);
    NormFixesExactly(Norm(s));
  }

  // -------------------------------------------------------------- the printer

  function FirstSpace(s: string): (i: nat)
    ensures i <= |s| && ' ' !in s[..i] && (i < |s| ==> s[i] == ' ')
    ensures i < |s| <==> ' ' in s
  {
    if s == [] || s[0] == ' ' then 0
    else
      var i := FirstSpace(s[1..]);
      assert s[..i + 1] == [s[0]] + s[1..][..i];
      i + 1
  }

  /** `s.partition(" ")` */
  function Head(s: string): string { s[..FirstSpace(s)] }

  function Tail(s: string): string {
    if FirstSpace(s) < |s| then s[FirstSpace(s) + 1..] else []
  }

  /** `" ".join(w)` */
  function SpaceJoin(w: string): string {
    if |w| <= 1 then w else [w[0], ' '] + SpaceJoin(w[1..])
  }

  /** The space-out of `render`: the first word spelled out, the rest kept. */
  function SpaceOut(s: string): string {
    SpaceJoin(Head(s)) + [' '] + Tail(s)
  }

  function Pairs(w: string): string {
    if w == [] then [] else [w[0], ' '] + Pairs(w[1..])
  }

  lemma {:induction false} SpaceJoinPairs(w: string)
    requires w != []
    ensures SpaceJoin(w) + [' '] == Pairs(w)
  {
    if |w| > 1 {
      SpaceJoinPairs(w[1..]);
    } else {
      assert Pairs(w[1..]) == [];
    }
  }

  lemma {:induction false} PairsRun(w: string, t: string)
    requires ' ' !in w
    ensures Run(Pairs(w) + t) == |w| + Run(t)
    ensures Letters(Pairs(w) + t, |w| + Run(t)) == w + Letters(t, Run(t))
    ensures |Pairs(w)| == 2 * |w|
  {
    var s := Pairs(w) + t;
    if w == [] {
      assert s == t;
    } else {
      assert w[0] in w;
      assert s[2..] == Pairs(w[1..]) + t;
      PairsRun(w[1..], t);
      assert Letters(s, |w| + Run(t)) == [w[0]] + Letters(s[2..], |w[1..]| + Run(t));
    }
  }

  /** A spelled-out word of three letters or more is joined again, together with any single
      characters that follow it. */
  lemma NormOfPairs(w: string, t: string)
    requires ' ' !in w && |w| >= 3
    ensures Norm(Pairs(w) + t) == (w + Letters(t, Run(t))) + ([' '] + Norm(t[2 * Run(t)..]))
  {
    PairsSplit(w, t);
    NormJoins(Pairs(w) + t, w + Letters(t, Run(t)), t[2 * Run(t)..]);
  }

  lemma PairsSplit(w: string, t: string)
    requires ' ' !in w
    ensures var s := Pairs(w) + t;
      Run(s) == |w| + Run(t) && Letters(s, Run(s)) == w + Letters(t, Run(t)) && s[2 * Run(s)..] == t[2 * Run(t)..]
  {
    PairsRun(w, t);
    DropPairs(Pairs(w), t, 2 * Run(t));
  }

  lemma DropPairs(a: string, b: string, k: nat)
    requires k <= |b|
    ensures (a + b)[|a| + k..] == b[k..]
  {
  }

  lemma NormJoins(s: string, word: string, rest: string)
    requires Run(s) >= 3 && Letters(s, Run(s)) == word && s[2 * Run(s)..] == rest
    ensures Norm(s) == word + ([' '] + Norm(rest))
  {
  }

  /** The exact inputs on which the normaliser undoes the printer. */
  predicate Restorable(s: string) {
    var h, t := Head(s), Tail(s);
    && ' ' in s
    && if |h| <= 1 then !HasSpaced(s)
       else |h| >= 3 && !(|t| >= 2 && t[0] != ' ' && t[1] == ' ') && !HasSpaced(t)
  }

  lemma TwoPairs(a: char, b: char)
    ensures Pairs([a, b]) == [a, ' ', b, ' ']
  {
    assert [b][1..] == [] && Pairs([b]) == [b, ' '];
    assert [a, b][1..] == [b];
  }

  lemma SpacedTwoLetters(a: char, b: char, t: string)
    requires a != ' ' && b != ' '
    ensures Norm([a, ' ', b, ' '] + t) != [a, b, ' '] + t
  {
    var s := [a, ' ', b, ' '] + t;
    PairsRun([a, b], t);
    TwoPairs(a, b);
    if Run(s) >= 3 {
      var k := Run(t);
      assert Norm(s)[2] == Letters(t, k)[0] by {
        assert Letters(s, Run(s)) == [a, b] + Letters(t, k);
      }
    } else {
      assert s[1..] == [' ', b, ' '] + t;
      assert Norm(s)[1] == Norm(s[1..])[0] == ' ';
    }
  }

  lemma {:induction false} NoSpaceNeverReturns(w: string)
    requires ' ' !in w
    ensures Norm(SpaceOut(w)) != w
  {
    assert Head(w) == w && Tail(w) == [];
    if w == [] {
      assert SpaceOut(w) == [' '];
      assert Norm([' ']) == [' '] + Norm([]) ;
    } else {
      SpaceJoinPairs(w);
      assert SpaceOut(w) == Pairs(w) + [];
      PairsRun(w, []);
      if |w| >= 3 {
        NormOfPairs(w, []);
      } else {
        NormFixesExactly(Pairs(w));
        assert Pairs(w) + [] == Pairs(w);
        assert |Pairs(w)| == 2 * |w| <= 4;
      }
    }
  }

  lemma HeadAndTail(s: string)
    requires ' ' in s
    ensures s == Head(s) + [' '] + Tail(s) && ' ' !in Head(s)
    ensures |Head(s)| <= 1 ==> SpaceOut(s) == s
    ensures |Head(s)| > 1 ==> SpaceOut(s) == Pairs(Head(s)) + Tail(s)
  {
    if |Head(s)| > 1 { SpaceJoinPairs(Head(s)); }
  }

  lemma ShortHeadRoundTrip(h: string, t: string)
    requires ' ' !in h && |h| == 2
    ensures Norm(Pairs(h) + t) != h + [' '] + t
  {
    assert h == [h[0], h[1]] && h[0] in h && h[1] in h;
    TwoPairs(h[0], h[1]);
    SpacedTwoLetters(h[0], h[1], t);
  }

  /** Normalising what the printer spaced out gives the text back exactly when it is restorable. */
  lemma RoundTripExactly(s: string)
    ensures Norm(SpaceOut(s)) == s <==> Restorable(s)
  {
    if ' ' !in s {
      NoSpaceNeverReturns(s);
    } else {
      HeadAndTail(s);
      if |Head(s)| <= 1 {
        NormFixesExactly(s);
      } else if |Head(s)| == 2 {
        ShortHeadRoundTrip(Head(s), Tail(s));
      } else {
        LongHeadRoundTrip(Head(s), Tail(s));
      }
    }
  }

  lemma LongHeadRoundTrip(h: string, t: string)
    requires ' ' !in h && |h| >= 3
    ensures Norm(Pairs(h) + t) == h + [' '] + t <==> Run(t) == 0 && !HasSpaced(t)
  {
    NormOfPairs(h, t);
    if Run(t) == 0 {
      NormFixesExactly(t);
      assert t[0..] == t && h + [] == h;
      SameTail(h, Norm(t), t);
    } else {
      OtherTail(h, Letters(t, Run(t)), [' '] + Norm(t[2 * Run(t)..]), t);
    }
  }

  lemma SameTail(h: string, x: string, y: string)
    ensures h + ([' '] + x) == h + [' '] + y <==> x == y
  {
    assert (h + ([' '] + x))[|h| + 1..] == x;
    assert (h + [' '] + y)[|h| + 1..] == y;
    assert h + ([' '] + x) == h + [' '] + x;
  }

  lemma OtherTail(h: string, word: string, x: string, y: string)
    requires word != [] && word[0] != ' '
    ensures (h + word) + x != h + [' '] + y
  {
    assert ((h + word) + x)[|h|] == word[0];
    assert (h + [' '] + y)[|h|] == ' ';
  }
}
