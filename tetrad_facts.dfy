/** What the Tetrad decoder guarantees about the matrix it returns and the
    exceptions it raises. */
module TetradFacts {
  import opened Common
  import opened Tokens
  import opened Tetrad

  /** Every cell holds one of the three codes: 0 no edge, 1 undirected, 2 directed. */
  ghost predicate EdgeCodes(m: Matrix<int>)
  {
    forall i, j :: 0 <= i < |m| && 0 <= j < |m[i]| ==> 0 <= m[i][j] <= 2
  }

  /** What one edge line does to the matrix: `A --> B` writes 2 at row B,
      column A; `A --- B` writes 1 at both (B, A) and (A, B); any other glyph
      leaves the matrix as it is. No other cell changes. */
  lemma EdgeLineEffect(m: Matrix<int>, n: nat, e: Edge)
    requires IsSquare(m, n)
    ensures !Directed(e) && !Undirected(e) ==> ApplyEdge(m, n, e) == Some(m)
    ensures (Directed(e) || Undirected(e)) ==>
      (ApplyEdge(m, n, e).Some? <==> PyIndex(e.head, n).Some? && PyIndex(e.tail, n).Some?)
    ensures Directed(e) && ApplyEdge(m, n, e).Some? ==>
      var h, t, m' := PyIndex(e.head, n).value, PyIndex(e.tail, n).value, ApplyEdge(m, n, e).value;
      IsSquare(m', n) && m'[h][t] == 2 &&
      forall r, c :: 0 <= r < n && 0 <= c < n && (r, c) != (h, t) ==> m'[r][c] == m[r][c]
    ensures Undirected(e) && ApplyEdge(m, n, e).Some? ==>
      var h, t, m' := PyIndex(e.head, n).value, PyIndex(e.tail, n).value, ApplyEdge(m, n, e).value;
      IsSquare(m', n) && m'[h][t] == 1 && m'[t][h] == 1 &&
      forall r, c :: 0 <= r < n && 0 <= c < n && (r, c) != (h, t) && (r, c) != (t, h) ==> m'[r][c] == m[r][c]
  {
    if Directed(e) && ApplyEdge(m, n, e).Some? {
      SetAt(m, PyIndex(e.head, n).value, PyIndex(e.tail, n).value, 2);
    }
    if Undirected(e) && ApplyEdge(m, n, e).Some? {
      var h, t := PyIndex(e.head, n).value, PyIndex(e.tail, n).value;
      SetAt(m, h, t, 1);
      SetAt(Set(m, h, t, 1), t, h, 1);
    }
  }

  /** Applying edge lines keeps every cell within the three codes. */
  lemma {:induction false} ApplyLinesKeepsCodes(m0: Matrix<int>, n: nat, tet: seq<string>, lo: nat, hi: nat)
    requires IsSquare(m0, n) && hi <= |tet| && EdgeCodes(m0)
    ensures ApplyLines(m0, n, tet, lo, hi).Success? ==> EdgeCodes(ApplyLines(m0, n, tet, lo, hi).value)
    decreases hi
  {
    if lo < hi {
      ApplyLinesKeepsCodes(m0, n, tet, lo, hi - 1);
      var prev := ApplyLines(m0, n, tet, lo, hi - 1);
      if prev.Success? {
        StepLineKeepsCodes(prev.value, n, tet[hi - 1], hi - 1);
      }
    }
  }

  /** One edge line keeps every cell within the three codes. */
  lemma StepLineKeepsCodes(m: Matrix<int>, n: nat, line: string, i: nat)
    requires IsSquare(m, n) && EdgeCodes(m)
    ensures StepLine(m, n, line, i).Success? ==> EdgeCodes(StepLine(m, n, line, i).value)
  {
    var e := ParseEdge(line);
    if e.Some? {
      EdgeLineEffect(m, n, e.value);
    }
  }

  /** The decoded matrix only ever holds 0, 1 or 2. */
  lemma DecodedCodes(tet: seq<string>)
    ensures Decode(tet).Success? ==> EdgeCodes(Decode(tet).value)
  {
    if Header(tet).Success? {
      var (n, q) := Header(tet).value;
      ApplyLinesKeepsCodes(IntZeros(n), n, tet, q, EdgeBlockEnd(tet, q));
    }
  }

  /** The node line is the line right after `Graph Nodes:`. The slice before
      `Graph Edges:` holds it exactly when at least one line separates it from
      `Graph Edges:`; when `Graph Edges:` is the very first line, Python reads
      the bound -1 as "up to the last line". */
  lemma NodeBlock(tet: seq<string>, g: nat, e: nat)
    requires g < |tet| && e < |tet|
    ensures PySlice(tet, g + 1, e - 1) != [] <==> if e == 0 then g + 2 < |tet| else g + 2 < e
    ensures PySlice(tet, g + 1, e - 1) != [] ==> PySlice(tet, g + 1, e - 1)[0] == tet[g + 1]
  {
  }

  /** The header part, once both headers are found at g and e. */
  lemma HeaderOfIndices(tet: seq<string>, g: nat, e: nat)
    requires IndexOf(tet, NodesHeader) == Some(g) && IndexOf(tet, EdgesHeader) == Some(e)
    ensures Header(tet) ==
      if (if e == 0 then g + 2 < |tet| else g + 2 < e) then Success((|Words(tet[g + 1])|, e + 1))
      else Failure(NodeLineMissing)
  {
    HeaderUnfold(tet, g, e);
    NodeBlock(tet, g, e);
  }

  /** The header part read off its definition, once both headers are found. */
  lemma HeaderUnfold(tet: seq<string>, g: nat, e: nat)
    requires IndexOf(tet, NodesHeader) == Some(g) && IndexOf(tet, EdgesHeader) == Some(e)
    ensures var block := PySlice(tet, g + 1, e - 1);
      Header(tet) == if block == [] then Failure(NodeLineMissing) else Success((|Words(block[0])|, e + 1))
  {
  }

  /** The decoder raises exactly when a header is missing or no line lies
      between the node line's position and the line before `Graph Edges:`. */
  lemma DecodeHeaderErrors(tet: seq<string>)
    ensures IndexOf(tet, NodesHeader).None? ==> Decode(tet) == Failure(NodesHeaderMissing)
    ensures IndexOf(tet, NodesHeader).Some? && IndexOf(tet, EdgesHeader).None? ==>
      Decode(tet) == Failure(EdgesHeaderMissing)
    ensures IndexOf(tet, NodesHeader).Some? && IndexOf(tet, EdgesHeader).Some? ==>
      var g, e := IndexOf(tet, NodesHeader).value, IndexOf(tet, EdgesHeader).value;
      (Decode(tet) == Failure(NodeLineMissing) <==> !(if e == 0 then g + 2 < |tet| else g + 2 < e))
  {
    var g, e := IndexOf(tet, NodesHeader), IndexOf(tet, EdgesHeader);
    if g.Some? && e.Some? {
      HeaderOfIndices(tet, g.value, e.value);
    }
  }

  /** The header part succeeds with N the number of word tokens on the line
      right after `Graph Nodes:`, and with the line after `Graph Edges:` as
      the first edge line. */
  lemma HeaderFields(tet: seq<string>)
    ensures Header(tet).Success? ==>
      var g, e := IndexOf(tet, NodesHeader), IndexOf(tet, EdgesHeader);
      g.Some? && e.Some? && g.value + 1 < |tet| &&
      Header(tet).value == (|Words(tet[g.value + 1])|, e.value + 1)
  {
    if Header(tet).Success? {
      HeaderNeedsBoth(tet);
      HeaderFieldsAt(tet, IndexOf(tet, NodesHeader).value, IndexOf(tet, EdgesHeader).value);
    }
  }

  /** HeaderFields, for headers found at g and e. */
  lemma HeaderFieldsAt(tet: seq<string>, g: nat, e: nat)
    requires IndexOf(tet, NodesHeader) == Some(g) && IndexOf(tet, EdgesHeader) == Some(e)
    ensures Header(tet).Success? ==> g + 1 < |tet| && Header(tet).value == (|Words(tet[g + 1])|, e + 1)
  {
    HeaderOfIndices(tet, g, e);
  }

  /** The header part succeeds only when both header lines are present. */
  lemma HeaderNeedsBoth(tet: seq<string>)
    ensures Header(tet).Success? ==> IndexOf(tet, NodesHeader).Some? && IndexOf(tet, EdgesHeader).Some?
  {
  }

  /** The result is N x N, N the number of word tokens on the line right after
      `Graph Nodes:`. */
  lemma DecodedShape(tet: seq<string>)
    ensures Decode(tet).Success? ==>
      IndexOf(tet, NodesHeader).Some? && IndexOf(tet, NodesHeader).value + 1 < |tet| &&
      IsSquare(Decode(tet).value, |Words(tet[IndexOf(tet, NodesHeader).value + 1])|)
  {
    HeaderFields(tet);
  }

  /** With a blank first line the scan stops at once: no edge line is read and
      the matrix stays all zero. */
  lemma BlankFirstLineReadsNoEdge(tet: seq<string>)
    requires |tet| > 0 && tet[0] == ""
    ensures Decode(tet).Failure? ==> Decode(tet).error in {NodesHeaderMissing, EdgesHeaderMissing, NodeLineMissing}
    ensures Decode(tet).Success? ==> forall i, j :: 0 <= i < |Decode(tet).value| && 0 <= j < |Decode(tet).value| ==>
      Decode(tet).value[i][j] == 0
  {
    if Header(tet).Success? {
      var (n, q) := Header(tet).value;
      assert EdgeBlockEnd(tet, q) == 0;
      assert Decode(tet) == Success(IntZeros(n));
    }
  }

  /** Later lines overwrite earlier ones: whatever the lines before it did,
      the last edge line read leaves its own code in the cells it names. */
  lemma {:induction false} LastLineWins(m0: Matrix<int>, n: nat, tet: seq<string>, lo: nat, hi: nat)
    requires IsSquare(m0, n) && lo < hi <= |tet|
    requires ApplyLines(m0, n, tet, lo, hi).Success?
    ensures ParseEdge(tet[hi - 1]).Some?
    ensures var e, m := ParseEdge(tet[hi - 1]).value, ApplyLines(m0, n, tet, lo, hi).value;
      Directed(e) ==> m[PyIndex(e.head, n).value][PyIndex(e.tail, n).value] == 2
    ensures var e, m := ParseEdge(tet[hi - 1]).value, ApplyLines(m0, n, tet, lo, hi).value;
      Undirected(e) ==> m[PyIndex(e.head, n).value][PyIndex(e.tail, n).value] == 1 &&
                        m[PyIndex(e.tail, n).value][PyIndex(e.head, n).value] == 1
  {
    var prev := ApplyLines(m0, n, tet, lo, hi - 1);
    assert prev.Success?;
    var e := ParseEdge(tet[hi - 1]);
    assert e.Some?;
    EdgeLineEffect(prev.value, n, e.value);
  }

  /** The two files have the same first `k` lines. */
  ghost predicate SameUpTo(tet: seq<string>, tet': seq<string>, k: nat)
  {
    k <= |tet| && k <= |tet'| && forall l :: 0 <= l < k ==> tet[l] == tet'[l]
  }

  /** `list.index` only looks as far as the first occurrence: lines after it
      do not matter. */
  lemma IndexOfPrefix(tet: seq<string>, tet': seq<string>, x: string, k: nat)
    requires SameUpTo(tet, tet', k)
    requires IndexOf(tet, x).Some? && IndexOf(tet, x).value < k
    ensures IndexOf(tet', x) == IndexOf(tet, x)
  {
  }

  lemma {:induction false} ApplyLinesPrefix(m0: Matrix<int>, n: nat, tet: seq<string>, tet': seq<string>, lo: nat, hi: nat)
    requires IsSquare(m0, n) && SameUpTo(tet, tet', hi)
    ensures ApplyLines(m0, n, tet, lo, hi) == ApplyLines(m0, n, tet', lo, hi)
    decreases hi
  {
    if lo < hi {
      ApplyLinesPrefix(m0, n, tet, tet', lo, hi - 1);
    }
  }

  /** Only the lines up to the first blank line after `Graph Edges:` are read
      (Tetrad's fGES output goes on with other material after that blank
      line): two files that agree up to and including that blank line decode
      the same, whatever follows. */
  lemma LinesAfterBlankIgnored(tet: seq<string>, tet': seq<string>, k: nat)
    requires IndexOf(tet, NodesHeader).Some? && IndexOf(tet, EdgesHeader).Some?
    requires var e := IndexOf(tet, EdgesHeader).value;
      IndexOf(tet, NodesHeader).value + 2 < k && e < k &&
      EdgeBlockEnd(tet, e + 1) < k
    requires SameUpTo(tet, tet', k)
    ensures Decode(tet) == Decode(tet')
  {
    HeaderPrefix(tet, tet', k);
    if Header(tet).Success? {
      var (n, q) := Header(tet).value;
      DecodePrefix(tet, tet', n, q, k);
    }
  }

  /** The header part only reads the lines up to `Graph Edges:` and the node line. */
  lemma HeaderPrefix(tet: seq<string>, tet': seq<string>, k: nat)
    requires IndexOf(tet, NodesHeader).Some? && IndexOf(tet, EdgesHeader).Some?
    requires IndexOf(tet, NodesHeader).value + 2 < k && IndexOf(tet, EdgesHeader).value < k
    requires SameUpTo(tet, tet', k)
    ensures Header(tet) == Header(tet')
  {
    var g, e := IndexOf(tet, NodesHeader).value, IndexOf(tet, EdgesHeader).value;
    IndexOfPrefix(tet, tet', NodesHeader, k);
    IndexOfPrefix(tet, tet', EdgesHeader, k);
    HeaderOfIndices(tet, g, e);
    HeaderOfIndices(tet', g, e);
    assert tet[g + 1] == tet'[g + 1];
  }

  /** After the same header, the edge block and hence the result depend only
      on the lines up to the block's end. */
  lemma DecodePrefix(tet: seq<string>, tet': seq<string>, n: nat, q: nat, k: nat)
    requires Header(tet) == Success((n, q)) && Header(tet') == Success((n, q))
    requires EdgeBlockEnd(tet, q) < k && SameUpTo(tet, tet', k)
    ensures Decode(tet) == Decode(tet')
  {
    EdgeBlockPrefix(tet, tet', q, k);
    ApplyLinesPrefix(IntZeros(n), n, tet, tet', q, EdgeBlockEnd(tet, q));
    DecodeAfterHeader(tet, n, q);
    DecodeAfterHeader(tet', n, q);
  }

  /** Once the header part has succeeded, the decoder applies the edge block. */
  lemma DecodeAfterHeader(tet: seq<string>, n: nat, q: nat)
    requires Header(tet) == Success((n, q))
    ensures 1 <= q <= |tet|
    ensures Decode(tet) == ApplyLines(IntZeros(n), n, tet, q, EdgeBlockEnd(tet, q))
  {
  }

  /** The end of the edge block is decided by the lines up to it. */
  lemma EdgeBlockPrefix(tet: seq<string>, tet': seq<string>, q: nat, k: nat)
    requires 1 <= q <= |tet| && 1 <= q <= |tet'|
    requires EdgeBlockEnd(tet, q) < k && SameUpTo(tet, tet', k)
    ensures EdgeBlockEnd(tet', q) == EdgeBlockEnd(tet, q)
  {
    if tet[0] != "" {
      BlankFromIsFirst(tet', q, EdgeBlockEnd(tet, q));
    }
  }
}
