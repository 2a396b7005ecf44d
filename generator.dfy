/** generateColors: a palette of distinct colours by rejection sampling.
    The random source is a finite stream of digit draws; every six draws
    make one candidate colour. */
module Generator {
  import opened Colors

  /** The candidate colours a stream of draws yields, six draws apiece;
      trailing draws that do not fill a candidate are not used. */
  function Candidates(draws: seq<HexDraw>): (cs: seq<Color>)
    ensures |cs| == |draws| / 6
    ensures forall k :: 0 <= k < |cs| ==> IsColor(cs[k])
    decreases |draws|
  {
    if |draws| < 6 then [] else [RandomColor(draws[..6])] + Candidates(draws[6..])
  }

  /** The elements of a sequence, as a set. */
  function Elems(s: seq<Color>): set<Color> {
    set c | c in s
  }

  /** No colour occurs twice. */
  predicate Distinct(s: seq<Color>) {
    forall j, k :: 0 <= j < k < |s| ==> s[j] != s[k]
  }

  /** Reference definition: the distinct elements of `s` in the order of
      their first occurrence. */
  function Dedup(s: seq<Color>): (d: seq<Color>)
    ensures Distinct(d)
    ensures Elems(d) == Elems(s)
    ensures |d| <= |s|
  {
    if s == [] then []
    else
      var p := Dedup(s[..|s| - 1]);
      var c := s[|s| - 1];
      assert s == s[..|s| - 1] + [c];
      assert Elems(s) == Elems(s[..|s| - 1]) + {c};
      assert Elems(p + [c]) == Elems(p) + {c};
      if c in p then p else p + [c]
  }

  /** The first `n` distinct elements of `s` (all of them when there are fewer). */
  function FirstDistinct(n: nat, s: seq<Color>): (r: seq<Color>)
    ensures |r| <= n && Distinct(r) && Elems(r) <= Elems(s)
    ensures r <= Dedup(s)
  {
    var d := Dedup(s);
    if |d| <= n then d else d[..n]
  }

  /** generateColors(difficultyNum): draw candidates, keep those not yet
      generated, until `difficultyNum` colours are kept or the stream of
      draws runs out. The kept colours are exactly the first distinct
      candidates, in drawing order. */
  method GenerateColors(difficultyNum: nat, draws: seq<HexDraw>) returns (newColors: seq<Color>)
    ensures newColors == FirstDistinct(difficultyNum, Candidates(draws))
    ensures |newColors| <= difficultyNum && Distinct(newColors)
    ensures forall k :: 0 <= k < |newColors| ==> IsColor(newColors[k])
  {
    newColors := [];
    var generatedColors: set<Color> := {};
    var pos := 0;
    while |newColors| < difficultyNum && pos + 6 <= |draws|
      invariant 0 <= pos <= |draws| && pos % 6 == 0
      invariant generatedColors == Elems(newColors)
      invariant newColors == Dedup(Candidates(draws[..pos]))
      invariant |newColors| <= difficultyNum
      decreases |draws| - pos
    {
      var color := RandomColor(draws[pos..pos + 6]);
      KeepOrSkip(draws, pos, newColors);
      pos := pos + 6;
      if color !in generatedColors {
        newColors := newColors + [color];
        generatedColors := generatedColors + {color};
      }
    }
    GenerateColorsStops(difficultyNum, draws, pos);
  }

  /** One turn of the loop of GenerateColors: the next candidate is kept
      exactly when it is not among the colours kept so far. */
  lemma KeepOrSkip(draws: seq<HexDraw>, pos: nat, kept: seq<Color>)
    requires pos % 6 == 0 && pos + 6 <= |draws|
    requires kept == Dedup(Candidates(draws[..pos]))
    ensures var color := RandomColor(draws[pos..pos + 6]);
      && Dedup(Candidates(draws[..pos + 6])) == (if color in Elems(kept) then kept else kept + [color])
      && Elems(kept + [color]) == Elems(kept) + {color}
  {
    var color := RandomColor(draws[pos..pos + 6]);
    CandidatesStep(draws, pos);
    DedupSnoc(Candidates(draws[..pos]), color);
    ElemsSnoc(kept, color);
  }

  /** When the loop of GenerateColors stops, the colours it kept are the
      first distinct candidates of the whole stream. */
  lemma GenerateColorsStops(n: nat, draws: seq<HexDraw>, pos: nat)
    requires pos <= |draws| && pos % 6 == 0
    requires |Dedup(Candidates(draws[..pos]))| <= n
    requires |Dedup(Candidates(draws[..pos]))| == n || |draws| < pos + 6
    ensures Dedup(Candidates(draws[..pos])) == FirstDistinct(n, Candidates(draws))
    ensures forall k :: 0 <= k < |FirstDistinct(n, Candidates(draws))| ==>
      IsColor(FirstDistinct(n, Candidates(draws))[k])
  {
    CandidatesSplit(draws, pos);
    DedupPrefix(Candidates(draws[..pos]), Candidates(draws[pos..]));
    if |draws| < pos + 6 {
      assert Candidates(draws[pos..]) == [];
      assert Candidates(draws) == Candidates(draws[..pos]);
    }
    var r := FirstDistinct(n, Candidates(draws));
    forall k | 0 <= k < |r| ensures IsColor(r[k]) {
      assert r[k] in Elems(Candidates(draws));
    }
  }

  /** Dedup keeps a new element and drops a repeated one. */
  lemma DedupSnoc(s: seq<Color>, c: Color)
    ensures Dedup(s + [c]) == if c in Dedup(s) then Dedup(s) else Dedup(s) + [c]
  {
  }

  /** Appending a colour adds it to the set of elements. */
  lemma ElemsSnoc(s: seq<Color>, c: Color)
    ensures Elems(s + [c]) == Elems(s) + {c}
  {
  }

  /** Candidates of a stream split at a candidate boundary. */
  lemma {:induction false} CandidatesAppend(a: seq<HexDraw>, b: seq<HexDraw>)
    requires |a| % 6 == 0
    ensures Candidates(a + b) == Candidates(a) + Candidates(b)
    decreases |a|
  {
    if |a| == 0 {
      assert a + b == b;
    } else {
      assert (a + b)[..6] == a[..6];
      assert (a + b)[6..] == a[6..] + b;
      CandidatesAppend(a[6..], b);
    }
  }

  /** Splitting the stream at `pos` splits its candidates. */
  lemma CandidatesSplit(draws: seq<HexDraw>, pos: nat)
    requires pos <= |draws| && pos % 6 == 0
    ensures Candidates(draws) == Candidates(draws[..pos]) + Candidates(draws[pos..])
  {
    assert draws == draws[..pos] + draws[pos..];
    CandidatesAppend(draws[..pos], draws[pos..]);
  }

  /** Drawing six more digits adds one candidate at the end. */
  lemma CandidatesStep(draws: seq<HexDraw>, pos: nat)
    requires pos % 6 == 0 && pos + 6 <= |draws|
    ensures Candidates(draws[..pos + 6]) == Candidates(draws[..pos]) + [RandomColor(draws[pos..pos + 6])]
  {
    var block := draws[pos..pos + 6];
    assert draws[..pos + 6] == draws[..pos] + block;
    CandidatesAppend(draws[..pos], block);
    assert block[..6] == block && block[6..] == [];
    assert Candidates(block) == [RandomColor(block)];
  }

  /** Later candidates never disturb the colours already kept. */
  lemma {:induction false} DedupPrefix(a: seq<Color>, b: seq<Color>)
    ensures Dedup(a) <= Dedup(a + b)
    decreases |b|
  {
    if b == [] {
      assert a + b == a;
    } else {
      var b' := b[..|b| - 1];
      DedupPrefix(a, b');
      assert (a + b)[..|a + b| - 1] == a + b';
    }
  }

  /** A sequence without repetitions has as many elements as its set. */
  lemma {:induction false} DistinctCard(s: seq<Color>)
    requires Distinct(s)
    ensures |Elems(s)| == |s|
  {
    if s != [] {
      var p := s[..|s| - 1];
      DistinctCard(p);
      assert s == p + [s[|s| - 1]];
      assert Elems(s) == Elems(p) + {s[|s| - 1]};
      assert s[|s| - 1] !in Elems(p);
    }
  }

  /** The palette is complete exactly when the stream holds at least
      `n` different candidate colours. */
  lemma FirstDistinctComplete(n: nat, draws: seq<HexDraw>)
    ensures |FirstDistinct(n, Candidates(draws))| == n <==> n <= |Elems(Candidates(draws))|
  {
    DistinctCard(Dedup(Candidates(draws)));
  }
}
