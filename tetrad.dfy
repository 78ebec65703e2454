/** `tetrad2matrix`: decoding the text graph the Tetrad causal-search tool
    writes into a connectivity matrix. The file is taken as its list of lines,
    already read and with the trailing newline removed. */
module Tetrad {
  import opened Common
  import opened Tokens

  const NodesHeader: string := "Graph Nodes:"
  const EdgesHeader: string := "Graph Edges:"

  /** The exceptions the decoder can raise, with the edge line they arise on. */
  datatype DecodeError =
    | NodesHeaderMissing        // `tet.index('Graph Nodes:')` raises ValueError
    | EdgesHeaderMissing        // `tet.index('Graph Edges:')` raises ValueError
    | NodeLineMissing           // `R[0]` on an empty slice raises IndexError
    | MalformedEdge(line: nat)  // fewer than 4 fields, a node token without digits, or a glyph shorter than 3
    | NodeOutOfRange(line: nat) // `mat[n2][n1]` with an index outside [-N, N)

  /** One edge line `k. A --> B`: the node indices of A (tail) and B (head)
      and the first and third characters of the arrow glyph. */
  datatype Edge = Edge(tail: int, head: int, tailMark: char, headMark: char)

  /** Python's `list.index`: the first position holding `x`, None where Python raises. */
  function IndexOf(tet: seq<string>, x: string): (r: Option<nat>)
    ensures r.Some? ==> r.value < |tet| && tet[r.value] == x
    ensures r.Some? ==> forall i :: 0 <= i < r.value ==> tet[i] != x
    ensures r.None? ==> forall i :: 0 <= i < |tet| ==> tet[i] != x
  {
    if tet == [] then None
    else if tet[0] == x then Some(0)
    else match IndexOf(tet[1..], x)
      case None => None
      case Some(i) => Some(i + 1)
  }

  /** A slice bound as Python normalises it: negative bounds count from the end,
      and every bound is clamped into [0, len]. */
  function SliceBound(i: int, len: nat): (b: nat)
    ensures b <= len
  {
    if i < 0 then (if i + len < 0 then 0 else i + len)
    else if i > len then len
    else i
  }

  /** Python's `s[lo:hi]`. */
  function PySlice<T>(s: seq<T>, lo: int, hi: int): seq<T>
  {
    var a := SliceBound(lo, |s|);
    var b := SliceBound(hi, |s|);
    if b <= a then [] else s[a..b]
  }

  /** First blank line at or after `i`, or the end of the file. */
  function BlankFrom(tet: seq<string>, i: nat): (fi: nat)
    requires i <= |tet|
    ensures i <= fi <= |tet|
    ensures forall k :: i <= k < fi ==> tet[k] != ""
    ensures fi < |tet| ==> tet[fi] == ""
    decreases |tet| - i
  {
    if i == |tet| || tet[i] == "" then i else BlankFrom(tet, i + 1)
  }

  /** Where the edge block ends (`fi`): the `while` test is first made on line
      0, so a blank first line stops the scan at once and no edge is read. */
  function EdgeBlockEnd(tet: seq<string>, q: nat): nat
    requires 1 <= q <= |tet|
  {
    if tet[0] == "" then 0 else BlankFrom(tet, q)
  }

  /** numpy's reading of an index into an axis of length `n`. */
  function PyIndex(k: int, n: nat): (r: Option<nat>)
    ensures r.Some? ==> r.value < n
  {
    if 0 <= k < n then Some(k)
    else if k < 0 && 0 <= k + n then Some(k + n)
    else None
  }

  function IntZeros(n: nat): (z: Matrix<int>)
    ensures IsSquare(z, n)
    ensures forall i, j :: 0 <= i < n && 0 <= j < n ==> z[i][j] == 0
  {
    seq(n, _ => seq(n, _ => 0))
  }

  function Set(m: Matrix<int>, i: nat, j: nat, v: int): Matrix<int>
    requires i < |m| && j < |m[i]|
  {
    m[i := m[i][j := v]]
  }

  /** The fields of one edge line, as the decoder picks them out. */
  function ParseEdge(line: string): Option<Edge>
  {
    var f := Fields(line);
    if |f| < 4 then None
    else
      match (NodeIndex(f[1]), NodeIndex(f[3]))
      case (Some(a), Some(b)) => if |f[2]| < 3 then None else Some(Edge(a, b, f[2][0], f[2][2]))
      case _ => None
  }

  predicate Directed(e: Edge)
  {
    e.tailMark == '-' && e.headMark == '>'
  }

  predicate Undirected(e: Edge)
  {
    e.tailMark == '-' && e.headMark == '-'
  }

  /** The matrix update one edge line makes (None where numpy raises). */
  function ApplyEdge(m: Matrix<int>, n: nat, e: Edge): Option<Matrix<int>>
    requires IsSquare(m, n)
  {
    if Directed(e) then
      match (PyIndex(e.head, n), PyIndex(e.tail, n))
      case (Some(h), Some(t)) => Some(Set(m, h, t, 2))
      case _ => None
    else if Undirected(e) then
      match (PyIndex(e.head, n), PyIndex(e.tail, n))
      case (Some(h), Some(t)) => Some(Set(Set(m, h, t, 1), t, h, 1))
      case _ => None
    else Some(m)
  }

  /** One edge line `tet[i]` applied to the matrix built so far. */
  function StepLine(m: Matrix<int>, n: nat, line: string, i: nat): (r: Result<Matrix<int>, DecodeError>)
    requires IsSquare(m, n)
  {
    match ParseEdge(line)
    case None => Failure(MalformedEdge(i))
    case Some(e) =>
      match ApplyEdge(m, n, e)
      case None => Failure(NodeOutOfRange(i))
      case Some(m') => Success(m')
  }

  /** The matrix after the edge lines `lo .. hi-1`, applied in file order. */
  function ApplyLines(m0: Matrix<int>, n: nat, tet: seq<string>, lo: nat, hi: nat): (r: Result<Matrix<int>, DecodeError>)
    requires IsSquare(m0, n) && hi <= |tet|
    ensures r.Success? ==> IsSquare(r.value, n)
    ensures r.Failure? ==> (r.error.MalformedEdge? || r.error.NodeOutOfRange?) && lo <= r.error.line < hi
    decreases hi
  {
    if hi <= lo then Success(m0)
    else
      match ApplyLines(m0, n, tet, lo, hi - 1)
      case Failure(err) => Failure(err)
      case Success(m) => StepLine(m, n, tet[hi - 1], hi - 1)
  }

  /** The header part of the decoder: the node count N (word tokens on the
      node line) and the index q of the first edge line, or the exception. */
  function Header(tet: seq<string>): (r: Result<(nat, nat), DecodeError>)
    ensures r.Success? ==> 1 <= r.value.1 <= |tet|
    ensures r.Failure? ==> r.error in {NodesHeaderMissing, EdgesHeaderMissing, NodeLineMissing}
  {
    match IndexOf(tet, NodesHeader)
    case None => Failure(NodesHeaderMissing)
    case Some(g) =>
      match IndexOf(tet, EdgesHeader)
      case None => Failure(EdgesHeaderMissing)
      case Some(e) =>
        var block := PySlice(tet, g + 1, e - 1);
        if block == [] then Failure(NodeLineMissing)
        else Success((|Words(block[0])|, e + 1))
  }

  /** What `tetrad2matrix` returns for the lines `tet`, or the exception it raises. */
  function Decode(tet: seq<string>): Result<Matrix<int>, DecodeError>
  {
    match Header(tet)
    case Failure(err) => Failure(err)
    case Success((n, q)) => ApplyLines(IntZeros(n), n, tet, q, EdgeBlockEnd(tet, q))
  }

  /** The `while` loop that counts the edge block: `fi` starts at 0 and then
      walks from `q`, one line per round, until a blank line or the end. */
  method ScanEdgeBlock(tet: seq<string>, q: nat) returns (fi: nat)
    requires 1 <= q <= |tet|
    ensures tet[0] == "" ==> fi == 0
    ensures tet[0] != "" ==> q <= fi <= |tet| && (fi < |tet| ==> tet[fi] == "")
    ensures tet[0] != "" ==> forall k :: q <= k < fi ==> tet[k] != ""
    ensures fi == EdgeBlockEnd(tet, q)
  {
    var n := 0;
    fi := 0;
    while fi < |tet| && tet[fi] != ""
      invariant n == 0 ==> fi == 0
      invariant n > 0 ==> tet[0] != "" && fi == q + n - 1 && fi <= |tet|
      invariant n > 0 ==> forall k :: q <= k < fi ==> tet[k] != ""
      decreases |tet| + 1 - n
    {
      n := n + 1;
      fi := q + n - 1;
    }
    if tet[0] != "" {
      BlankFromIsFirst(tet, q, fi);
    }
  }

  /** Any index past `q` with only non-blank lines before it and a blank line
      (or the end) at it is the one `BlankFrom` finds. */
  lemma {:induction false} BlankFromIsFirst(tet: seq<string>, q: nat, fi: nat)
    requires q <= fi <= |tet|
    requires forall k :: q <= k < fi ==> tet[k] != ""
    requires fi < |tet| ==> tet[fi] == ""
    ensures BlankFrom(tet, q) == fi
    decreases fi - q
  {
    if q < fi {
      BlankFromIsFirst(tet, q + 1, fi);
    }
  }

  /** The cell writes of one parsed edge line, in place: `mat[n2][n1] = 2`
      for `-->`, both `mat[n2][n1]` and `mat[n1][n2]` set to 1 for `---`. */
  method WriteEdge(mat: array2<int>, n: nat, e: Edge, ghost m: Matrix<int>) returns (ok: bool)
    requires mat.Length0 == n && mat.Length1 == n && IsSquare(m, n)
    requires forall r, c :: 0 <= r < n && 0 <= c < n ==> mat[r, c] == m[r][c]
    modifies mat
    ensures ok == ApplyEdge(m, n, e).Some?
    ensures ok ==> forall r, c :: 0 <= r < n && 0 <= c < n ==> mat[r, c] == ApplyEdge(m, n, e).value[r][c]
  {
    var h, t := PyIndex(e.head, n), PyIndex(e.tail, n);
    if Directed(e) {
      if h.None? || t.None? {
        return false;
      }
      mat[h.value, t.value] := 2;
      SetAt(m, h.value, t.value, 2);
    } else if Undirected(e) {
      if h.None? || t.None? {
        return false;
      }
      mat[h.value, t.value] := 1;
      mat[t.value, h.value] := 1;
      SetAt(m, h.value, t.value, 1);
      SetAt(Set(m, h.value, t.value, 1), t.value, h.value, 1);
    }
    return true;
  }

  lemma SetAt(m: Matrix<int>, i: nat, j: nat, v: int)
    requires i < |m| && j < |m[i]|
    ensures |Set(m, i, j, v)| == |m|
    ensures forall r :: 0 <= r < |m| ==> |Set(m, i, j, v)[r]| == |m[r]|
    ensures forall r, c :: 0 <= r < |m| && 0 <= c < |m[r]| ==>
      Set(m, i, j, v)[r][c] == if r == i && c == j then v else m[r][c]
  {
  }

  /** What line i adds to the lines before it. */
  lemma NextLine(m0: Matrix<int>, n: nat, tet: seq<string>, lo: nat, i: nat, m: Matrix<int>)
    requires IsSquare(m0, n) && lo <= i < |tet| && IsSquare(m, n)
    requires ApplyLines(m0, n, tet, lo, i) == Success(m)
    ensures ApplyLines(m0, n, tet, lo, i + 1) == StepLine(m, n, tet[i], i)
  {
  }

  /** One iteration of the decoder's `for` loop: parse line i and write its
      cells in place, or report the exception the line raises. */
  method EdgeLine(mat: array2<int>, n: nat, line: string, i: nat, ghost m: Matrix<int>) returns (err: Option<DecodeError>)
    requires mat.Length0 == n && mat.Length1 == n && IsSquare(m, n)
    requires forall r, c :: 0 <= r < n && 0 <= c < n ==> mat[r, c] == m[r][c]
    modifies mat
    ensures err.Some? <==> StepLine(m, n, line, i).Failure?
    ensures err.Some? ==> StepLine(m, n, line, i).error == err.value
    ensures err.None? ==> forall r, c :: 0 <= r < n && 0 <= c < n ==> mat[r, c] == StepLine(m, n, line, i).value[r][c]
  {
    var edge := ParseEdge(line);
    if edge.None? {
      return Some(MalformedEdge(i));
    }
    var ok := WriteEdge(mat, n, edge.value, m);
    if !ok {
      return Some(NodeOutOfRange(i));
    }
    return None;
  }

  /** Once a line fails, the decoder has raised: more lines do not change the error. */
  lemma {:induction false} FailureSticks(m0: Matrix<int>, n: nat, tet: seq<string>, lo: nat, hi: nat, hi': nat)
    requires IsSquare(m0, n) && hi <= hi' <= |tet|
    requires ApplyLines(m0, n, tet, lo, hi).Failure?
    ensures ApplyLines(m0, n, tet, lo, hi') == ApplyLines(m0, n, tet, lo, hi)
    decreases hi' - hi
  {
    if hi < hi' {
      FailureSticks(m0, n, tet, lo, hi, hi' - 1);
    }
  }

  /** `tetrad2matrix`: find the headers, count the nodes, measure the edge
      block, then fill a zero N x N matrix line by line. */
  method TetradToMatrix(tet: seq<string>) returns (res: Result<array2<int>, DecodeError>)
    ensures res.Failure? ==> Decode(tet) == Failure(res.error)
    ensures res.Success? ==> fresh(res.value) && Decode(tet) == Success(Cells(res.value))
  {
    var nodesAt := IndexOf(tet, NodesHeader);
    if nodesAt.None? {
      return Failure(NodesHeaderMissing);
    }
    var edgesAt := IndexOf(tet, EdgesHeader);
    if edgesAt.None? {
      return Failure(EdgesHeaderMissing);
    }
    var block := PySlice(tet, nodesAt.value + 1, edgesAt.value as int - 1);
    if block == [] {
      return Failure(NodeLineMissing);
    }
    var names := Words(block[0]);
    var q := edgesAt.value + 1;
    var fi := ScanEdgeBlock(tet, q);
    assert Decode(tet) == ApplyLines(IntZeros(|names|), |names|, tet, q, fi);
    res := FillEdges(tet, |names|, q, fi);
  }

  /** The decoder's zero N x N matrix, filled by the edge lines `q .. fi-1`. */
  method FillEdges(tet: seq<string>, n: nat, q: nat, fi: nat) returns (res: Result<array2<int>, DecodeError>)
    requires fi <= |tet|
    ensures res.Failure? ==> ApplyLines(IntZeros(n), n, tet, q, fi) == Failure(res.error)
    ensures res.Success? ==> fresh(res.value) && ApplyLines(IntZeros(n), n, tet, q, fi) == Success(Cells(res.value))
  {
    var mat := new int[n, n]((_, _) => 0);
    if fi < q {
      CellsOf(mat, IntZeros(n));
      return Success(mat);
    }
    var err := EdgeLines(mat, n, tet, q, fi);
    if err.Some? {
      return Failure(err.value);
    }
    CellsOf(mat, ApplyLines(IntZeros(n), n, tet, q, fi).value);
    return Success(mat);
  }

  /** The `for` loop of the decoder: each edge line of `q .. fi-1` in turn
      writes its cells in place into the zero matrix. */
  method EdgeLines(mat: array2<int>, n: nat, tet: seq<string>, q: nat, fi: nat) returns (err: Option<DecodeError>)
    requires q <= fi <= |tet| && mat.Length0 == n && mat.Length1 == n
    requires forall r, c :: 0 <= r < n && 0 <= c < n ==> mat[r, c] == 0
    modifies mat
    ensures err.Some? <==> ApplyLines(IntZeros(n), n, tet, q, fi).Failure?
    ensures err.Some? ==> ApplyLines(IntZeros(n), n, tet, q, fi).error == err.value
    ensures err.None? ==> forall r, c :: 0 <= r < n && 0 <= c < n ==>
      mat[r, c] == ApplyLines(IntZeros(n), n, tet, q, fi).value[r][c]
  {
    ghost var m0 := IntZeros(n);
    ghost var m := m0;
    var i := q;
    while i < fi
      invariant q <= i <= fi
      invariant ApplyLines(m0, n, tet, q, i) == Success(m)
      invariant IsSquare(m, n)
      invariant forall r, c :: 0 <= r < n && 0 <= c < n ==> mat[r, c] == m[r][c]
    {
      NextLine(m0, n, tet, q, i, m);
      err := EdgeLine(mat, n, tet[i], i, m);
      if err.Some? {
        FailureSticks(m0, n, tet, q, i + 1, fi);
        return;
      }
      m := StepLine(m, n, tet[i], i).value;
      i := i + 1;
    }
    return None;
  }
}
