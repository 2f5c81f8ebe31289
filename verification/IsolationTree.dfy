/** Building isolation trees: internal/anomaly/iforest.go. Random choices are arbitrary. */
module IsolationTree {
  import opened Reals

  type Row = seq<real>

  datatype Tree = External(size: nat) | Split(attr: nat, value: real, left: Tree, right: Tree)

  /** Rows of one width, so that every attribute exists in every row. */
  ghost predicate Rectangular(data: seq<Row>, width: nat) {
    forall i :: 0 <= i < |data| ==> |data[i]| == width
  }

  // ---- Sampling ----

  ghost predicate IsSampling(indices: seq<nat>, n: nat) {
    && (forall i :: 0 <= i < |indices| ==> indices[i] < n)
    && forall i, j :: 0 <= i < j < |indices| ==> indices[i] != indices[j]
  }

  /** The sample holds the rows at the picked positions, which are distinct. */
  ghost predicate IsSampleAt(data: seq<Row>, sample: seq<Row>, picked: seq<nat>) {
    && IsSampling(picked, |data|) && |sample| == |picked|
    && forall i :: 0 <= i < |sample| ==> picked[i] < |data| && sample[i] == data[picked[i]]
  }

  /** Draw i picks a position from i on, to change places with position i. */
  predicate AreOffsets(draws: seq<nat>, n: nat) {
    |draws| <= n && forall i :: 0 <= i < |draws| ==> i + draws[i] < n
  }

  function Exchanged(s: seq<nat>, i: nat, j: nat): (r: seq<nat>)
    requires i < |s| && j < |s|
    ensures |r| == |s|
  {
    s[i := s[j]][j := s[i]]
  }

  /** The positions after the shuffle has used these draws. */
  function Shuffled(n: nat, draws: seq<nat>): (r: seq<nat>)
    requires AreOffsets(draws, n)
    ensures |r| == n
  {
    if draws == [] then seq(n, i => i)
    else var k := |draws| - 1; Exchanged(Shuffled(n, draws[..k]), k, k + draws[k])
  }

  lemma ExchangeKeepsSampling(s: seq<nat>, n: nat, i: nat, j: nat)
    requires IsSampling(s, n) && i < |s| && j < |s|
    ensures IsSampling(Exchanged(s, i, j), n)
    ensures multiset(Exchanged(s, i, j)) == multiset(s)
  {
  }

  lemma {:induction false} ShuffledIsSampling(n: nat, draws: seq<nat>)
    requires AreOffsets(draws, n)
    ensures IsSampling(Shuffled(n, draws), n)
    ensures multiset(Shuffled(n, draws)) == multiset(Shuffled(n, []))
  {
    hide IsSampling, Exchanged;
    if draws == [] {
      Identity(Shuffled(n, draws), n);
    } else {
      var k := |draws| - 1;
      ShuffledIsSampling(n, draws[..k]);
      ExchangeKeepsSampling(Shuffled(n, draws[..k]), n, k, k + draws[k]);
    }
  }

  /** Later draws leave the positions before them alone. */
  lemma ShuffledKeepsPrefix(n: nat, draws: seq<nat>, d: nat)
    requires AreOffsets(draws + [d], n)
    ensures AreOffsets(draws, n)
    ensures Shuffled(n, draws + [d])[..|draws|] == Shuffled(n, draws)[..|draws|]
    ensures Shuffled(n, draws + [d])[|draws|] == Shuffled(n, draws)[|draws| + d]
  {
    assert forall i :: 0 <= i < |draws| ==> draws[i] == (draws + [d])[i];
    assert (draws + [d])[..|draws|] == draws;
  }

  lemma SlicedAt(s: seq<nat>, k: nat, at: nat)
    requires at < k <= |s|
    ensures s[at] in s[..k]
  {
    assert s[..k][at] == s[at];
  }

  /** Every position is still somewhere, and the one that was not picked before is not among those picked. */
  lemma StillThere(n: nat, draws: seq<nat>, v: nat) returns (at: nat)
    requires AreOffsets(draws, n) && v < n && v !in Shuffled(n, draws)[..|draws|]
    ensures |draws| <= at < n && Shuffled(n, draws)[at] == v
  {
    hide IsSampling;
    var s, start := Shuffled(n, draws), Shuffled(n, []);
    ShuffledIsSampling(n, draws);
    NothingShuffled(seq(n, i => i), n);
    assert start[v] == v && v in multiset(start);
    forall i | 0 <= i < |draws| ensures s[i] in s[..|draws|] {
      SlicedAt(s, |draws|, i);
    }
    at :| 0 <= at < n && s[at] == v;
  }

  /** Every choice of distinct positions, in every order, comes from some draws. */
  lemma {:induction false} EverySampleIsDrawn(n: nat, picked: seq<nat>) returns (draws: seq<nat>)
    requires IsSampling(picked, n)
    ensures |draws| == |picked| && AreOffsets(draws, n) && Shuffled(n, draws)[..|picked|] == picked
  {
    hide Shuffled;
    draws := [];
    if picked != [] {
      var k := |picked| - 1;
      var before := EverySampleIsDrawn(n, picked[..k]);
      var at := StillThere(n, before, picked[k]);
      draws := before + [at - k];
      ShuffledKeepsPrefix(n, before, at - k);
      var s := Shuffled(n, draws);
      assert picked == picked[..k] + [picked[k]];
      assert s[..k + 1] == s[..k] + [s[k]];
    }
  }

  /** ... and from no others: with fair draws every sample is equally likely. */
  lemma {:induction false} DrawsAreUnique(n: nat, draws: seq<nat>, others: seq<nat>)
    requires |draws| == |others| && AreOffsets(draws, n) && AreOffsets(others, n)
    requires Shuffled(n, draws)[..|draws|] == Shuffled(n, others)[..|draws|]
    ensures draws == others
  {
    hide Shuffled, IsSampling;
    if draws != [] {
      var k := |draws| - 1;
      assert draws == draws[..k] + [draws[k]] && others == others[..k] + [others[k]];
      ShuffledKeepsPrefix(n, draws[..k], draws[k]);
      ShuffledKeepsPrefix(n, others[..k], others[k]);
      ShorterPrefix(Shuffled(n, draws), Shuffled(n, others), k);
      DrawsAreUnique(n, draws[..k], others[..k]);
      ShuffledIsSampling(n, draws[..k]);
      SameValueSamePlace(Shuffled(n, draws[..k]), n, k + draws[k], k + others[k]);
    }
  }

  lemma ShorterPrefix(s: seq<nat>, t: seq<nat>, k: nat)
    requires k < |s| && k < |t| && s[..k + 1] == t[..k + 1]
    ensures s[..k] == t[..k] && s[k] == t[k]
  {
    assert s[..k] == s[..k + 1][..k] && t[..k] == t[..k + 1][..k];
    assert s[k] == s[..k + 1][k] && t[k] == t[..k + 1][k];
  }

  lemma SameValueSamePlace(s: seq<nat>, n: nat, i: nat, j: nat)
    requires IsSampling(s, n) && i < |s| && j < |s| && s[i] == s[j]
    ensures i == j
  {
  }

  /**
   * Partial Fisher-Yates shuffle. draws are the random numbers, one for each row of the sample. The sample consists of
   * the rows at the first shuffled positions, which are distinct.
   */
  method Subsample(data: seq<Row>, sampleSize: nat, draws: seq<nat>) returns (sample: seq<Row>)
    requires |draws| == (if sampleSize > |data| then |data| else sampleSize) && AreOffsets(draws, |data|)
    ensures |sample| == if sampleSize > |data| then |data| else sampleSize
    ensures IsSampleAt(data, sample, Shuffled(|data|, draws)[..|sample|])
  {
    var n := |data|;
    var size := sampleSize;
    if size > n {
      size := n;
    }
    hide IsSampling, Shuffled;
    var indices := new nat[n](i => i);
    assert draws[..0] == [];
    NothingShuffled(indices[..], n);
    for i := 0 to size
      invariant AreOffsets(draws[..i], n) && indices[..] == Shuffled(n, draws[..i])
    {
      var j := i + draws[i];
      ghost var before := indices[..];
      indices[i], indices[j] := indices[j], indices[i];
      assert indices[..] == Exchanged(before, i, j);
      assert draws[..i] + [draws[i]] == draws[..i + 1];
      ShuffledOn(n, draws[..i], draws[i]);
    }
    assert draws[..size] == draws;
    ghost var picked := Shuffled(n, draws)[..size];
    ShuffledIsSampling(n, draws);
    SamplingPrefix(indices[..], n, size);
    sample := [];
    for i := 0 to size
      invariant |sample| == i && forall k :: 0 <= k < i ==> sample[k] == data[picked[k]]
      invariant picked == indices[..size]
    {
      assert indices[i] == picked[i];
      sample := sample + [data[indices[i]]];
    }
  }

  lemma NothingShuffled(indices: seq<nat>, n: nat)
    requires |indices| == n && forall i :: 0 <= i < n ==> indices[i] == i
    ensures indices == Shuffled(n, [])
  {
  }

  lemma ShuffledOn(n: nat, draws: seq<nat>, d: nat)
    requires AreOffsets(draws, n) && |draws| + d < n
    ensures AreOffsets(draws + [d], n)
    ensures Shuffled(n, draws + [d]) == Exchanged(Shuffled(n, draws), |draws|, |draws| + d)
  {
    assert (draws + [d])[..|draws|] == draws;
  }

  lemma Identity(indices: seq<nat>, n: nat)
    requires |indices| == n && forall i :: 0 <= i < n ==> indices[i] == i
    ensures IsSampling(indices, n)
  {
  }

  lemma SamplingPrefix(indices: seq<nat>, n: nat, size: nat)
    requires IsSampling(indices, n) && size <= |indices|
    ensures IsSampling(indices[..size], n) && forall i :: 0 <= i < size ==> indices[..size][i] < n
  {
  }

  // ---- Building ----

  function Height(t: Tree): nat {
    match t
    case External(_) => 0
    case Split(_, _, l, r) => 1 + if Height(l) > Height(r) then Height(l) else Height(r)
  }

  /** The rows that go left, in order, and those that go right. */
  function Below(data: seq<Row>, attr: nat, value: real): seq<Row>
    requires forall i :: 0 <= i < |data| ==> attr < |data[i]|
  {
    if data == [] then []
    else var last := data[|data| - 1];
         Below(data[..|data| - 1], attr, value) + if last[attr] < value then [last] else []
  }

  function AtLeast(data: seq<Row>, attr: nat, value: real): seq<Row>
    requires forall i :: 0 <= i < |data| ==> attr < |data[i]|
  {
    if data == [] then []
    else var last := data[|data| - 1];
         AtLeast(data[..|data| - 1], attr, value) + if last[attr] < value then [] else [last]
  }

  lemma {:induction false} PartsFit(data: seq<Row>, attr: nat, value: real, width: nat)
    requires Rectangular(data, width) && attr < width
    ensures Rectangular(Below(data, attr, value), width) && Rectangular(AtLeast(data, attr, value), width)
    ensures |Below(data, attr, value)| + |AtLeast(data, attr, value)| == |data|
  {
    if data != [] {
      PartsFit(data[..|data| - 1], attr, value, width);
    }
  }

  /** The tree describes the data: every split is proper, and every leaf knows how many rows end in it. */
  ghost predicate Describes(t: Tree, data: seq<Row>, width: nat)
    requires Rectangular(data, width)
    decreases t
  {
    match t
    case External(size) => size == |data|
    case Split(attr, value, l, r) =>
      attr < width &&
      (PartsFit(data, attr, value, width);
       && Below(data, attr, value) != [] && AtLeast(data, attr, value) != []
       && Describes(l, Below(data, attr, value), width) && Describes(r, AtLeast(data, attr, value), width))
  }

  method MinMax(data: seq<Row>, attr: nat) returns (minVal: real, maxVal: real)
    requires data != [] && forall i :: 0 <= i < |data| ==> attr < |data[i]|
    ensures IsRange(data, attr, minVal, maxVal)
  {
    minVal, maxVal := data[0][attr], data[0][attr];
    for k := 1 to |data|
      invariant forall i :: 0 <= i < k ==> minVal <= data[i][attr] <= maxVal
      invariant exists i :: 0 <= i < k && data[i][attr] == minVal
      invariant exists i :: 0 <= i < k && data[i][attr] == maxVal
    {
      if data[k][attr] < minVal {
        minVal := data[k][attr];
      }
      if data[k][attr] > maxVal {
        maxVal := data[k][attr];
      }
    }
  }

  method Partition(data: seq<Row>, attr: nat, value: real) returns (left: seq<Row>, right: seq<Row>)
    requires forall i :: 0 <= i < |data| ==> attr < |data[i]|
    ensures left == Below(data, attr, value) && right == AtLeast(data, attr, value)
  {
    left, right := [], [];
    assert data[..0] == [];
    for k := 0 to |data|
      invariant left == Below(data[..k], attr, value) && right == AtLeast(data[..k], attr, value)
    {
      assert data[..k + 1][..k] == data[..k];
      if data[k][attr] < value {
        left := left + [data[k]];
      } else {
        right := right + [data[k]];
      }
    }
    assert data[..|data|] == data;
  }

  // ---- Random choices ----

  /** What is drawn for a node, if it comes to that. */
  datatype Choice = Choice(attr: nat, fraction: real)

  /** The choices for every node, which is named by the turns that lead to it. */
  type Choices = seq<bool> -> Choice

  ghost predicate Possible(choices: Choices, width: nat) {
    forall path :: (width > 0 ==> choices(path).attr < width) && 0.0 <= choices(path).fraction < 1.0
  }

  /** There is an attribute to draw wherever one is needed. */
  ghost predicate CanDraw(data: seq<Row>, width: nat, room: nat, choices: Choices) {
    Rectangular(data, width) && Possible(choices, width) && (room > 0 && |data| > 1 ==> width > 0)
  }

  /** The least and the greatest value of the attribute. */
  ghost predicate IsRange(data: seq<Row>, attr: nat, lo: real, hi: real)
    requires forall i :: 0 <= i < |data| ==> attr < |data[i]|
  {
    && (forall i :: 0 <= i < |data| ==> lo <= data[i][attr] <= hi)
    && (exists i :: 0 <= i < |data| && data[i][attr] == lo)
    && (exists i :: 0 <= i < |data| && data[i][attr] == hi)
  }

  ghost predicate IsConstant(data: seq<Row>, attr: nat)
    requires forall i :: 0 <= i < |data| ==> attr < |data[i]|
  {
    forall i, j :: 0 <= i < j < |data| ==> data[i][attr] == data[j][attr]
  }

  /** The attribute takes values from lo to lo + span, both included, and not only one. */
  ghost predicate HasSpan(data: seq<Row>, attr: nat, lo: real, span: real)
    requires forall i :: 0 <= i < |data| ==> attr < |data[i]|
  {
    span > 0.0 && IsRange(data, attr, lo, lo + span)
  }

  /** The value stands at the fraction of the range of the attribute. */
  ghost predicate SplitsAt(data: seq<Row>, attr: nat, fraction: real, value: real)
    requires forall i :: 0 <= i < |data| ==> attr < |data[i]|
  {
    exists lo, span :: HasSpan(data, attr, lo, span) && value == lo + fraction * span
  }

  lemma SplitIsUnique(data: seq<Row>, attr: nat, width: nat, fraction: real, v: real, v': real)
    requires Rectangular(data, width) && attr < width
    requires SplitsAt(data, attr, fraction, v) && SplitsAt(data, attr, fraction, v')
    ensures v == v'
  {
    hide IsRange;
    var lo, span :| HasSpan(data, attr, lo, span) && v == lo + fraction * span;
    var lo', span' :| HasSpan(data, attr, lo', span') && v' == lo' + fraction * span';
    RangeIsUnique(data, attr, width, lo, lo + span, lo', lo' + span');
    assert span == span';
  }

  lemma SplitsThere(data: seq<Row>, attr: nat, width: nat, lo: real, span: real, f: real)
    requires Rectangular(data, width) && attr < width && 0.0 <= f < 1.0 && span > 0.0
    requires IsRange(data, attr, lo, lo + span)
    ensures SplitsAt(data, attr, f, lo + f * span)
    ensures (Below(data, attr, lo + f * span) != [] && AtLeast(data, attr, lo + f * span) != []) <==> f > 0.0
  {
    assert HasSpan(data, attr, lo, span);
    SplitIsProperIff(data, attr, width, lo, span, f);
  }

  lemma SplitIsProper(data: seq<Row>, attr: nat, width: nat, fraction: real, v: real)
    requires Rectangular(data, width) && attr < width && 0.0 < fraction < 1.0 && SplitsAt(data, attr, fraction, v)
    ensures Below(data, attr, v) != [] && AtLeast(data, attr, v) != []
  {
    hide Below, AtLeast, IsRange;
    var lo, span :| HasSpan(data, attr, lo, span) && v == lo + fraction * span;
    SplitIsProperIff(data, attr, width, lo, span, fraction);
  }

  /**
   * The tree that these choices build below the node at the path, room levels above the limit. A leaf stands at the
   * limit, for at most one row, where the drawn attribute is constant, or where the drawn fraction is zero. A split
   * stands at the drawn fraction of the range of the drawn attribute.
   */
  ghost predicate BuiltBy(t: Tree, data: seq<Row>, width: nat, room: nat, choices: Choices, path: seq<bool>)
    requires CanDraw(data, width, room, choices)
    decreases t
  {
    var c := choices(path);
    match t
    case External(size) =>
      && size == |data|
      && (room == 0 || |data| <= 1 || IsConstant(data, c.attr) || c.fraction == 0.0)
    case Split(attr, value, l, r) =>
      && room > 0 && |data| > 1
      && attr == c.attr && 0.0 < c.fraction < 1.0 && SplitsAt(data, attr, c.fraction, value)
      && (PartsFit(data, attr, value, width);
          var below, above := Below(data, attr, value), AtLeast(data, attr, value);
          && BuiltBy(l, below, width, room - 1, choices, path + [true])
          && BuiltBy(r, above, width, room - 1, choices, path + [false]))
  }

  lemma RangeIsUnique(data: seq<Row>, attr: nat, width: nat, lo: real, hi: real, lo': real, hi': real)
    requires Rectangular(data, width) && attr < width && IsRange(data, attr, lo, hi) && IsRange(data, attr, lo', hi')
    ensures lo == lo' && hi == hi'
  {
  }

  /** The choices determine the tree. */
  lemma {:induction false} ChoicesDetermine(t: Tree, u: Tree, data: seq<Row>, width: nat, room: nat, choices: Choices,
                                            path: seq<bool>)
    requires CanDraw(data, width, room, choices)
    requires BuiltBy(t, data, width, room, choices, path) && BuiltBy(u, data, width, room, choices, path)
    ensures t == u
    decreases t
  {
    hide SplitsAt, IsConstant, Below, AtLeast;
    var c := choices(path);
    if t.Split? && u.Split? {
      SplitIsUnique(data, c.attr, width, c.fraction, t.value, u.value);
      PartsFit(data, c.attr, t.value, width);
      ChoicesDetermine(t.left, u.left, Below(data, c.attr, t.value), width, room - 1, choices, path + [true]);
      ChoicesDetermine(t.right, u.right, AtLeast(data, c.attr, t.value), width, room - 1, choices, path + [false]);
    } else if t.Split? {
      SplitsVary(data, c.attr, width, c.fraction, t.value);
    } else if u.Split? {
      SplitsVary(data, c.attr, width, c.fraction, u.value);
    }
  }

  lemma SplitsVary(data: seq<Row>, attr: nat, width: nat, fraction: real, v: real)
    requires Rectangular(data, width) && attr < width && SplitsAt(data, attr, fraction, v)
    ensures !IsConstant(data, attr)
  {
    hide IsRange, IsConstant;
    var lo, span :| HasSpan(data, attr, lo, span) && v == lo + fraction * span;
    NotConstant(data, attr, lo, lo + span);
  }

  /** A tree built by choices describes the data and respects the limit. */
  lemma {:induction false} BuiltDescribes(t: Tree, data: seq<Row>, width: nat, room: nat, choices: Choices,
                                          path: seq<bool>)
    requires CanDraw(data, width, room, choices) && BuiltBy(t, data, width, room, choices, path)
    ensures Describes(t, data, width) && Height(t) <= room
    decreases t
  {
    hide SplitsAt, IsConstant, Below, AtLeast;
    if t.Split? {
      var c := choices(path);
      SplitIsProper(data, c.attr, width, c.fraction, t.value);
      PartsFit(data, c.attr, t.value, width);
      BuiltDescribes(t.left, Below(data, c.attr, t.value), width, room - 1, choices, path + [true]);
      BuiltDescribes(t.right, AtLeast(data, c.attr, t.value), width, room - 1, choices, path + [false]);
    }
  }

  /** All rows that descend to the leaf at the path agree in the attribute. */
  ghost predicate ConstantAt(t: Tree, data: seq<Row>, path: seq<bool>, attr: nat)
    requires forall i :: 0 <= i < |data| ==> attr < |data[i]|
  {
    forall p, q | p in data && q in data && Descend(t, p) == path && Descend(t, q) == path ::
      attr < |p| && attr < |q| ==> p[attr] == q[attr]
  }

  /** When no fraction is zero, splitting goes on to the limit, to single rows, or until an attribute is constant. */
  lemma {:induction false} LeavesAreForced(t: Tree, data: seq<Row>, width: nat, room: nat, choices: Choices,
                                           at: seq<bool>, path: seq<bool>)
    requires CanDraw(data, width, room, choices) && BuiltBy(t, data, width, room, choices, at)
    requires forall p :: choices(p).fraction != 0.0
    requires IsLeaf(t, path) && SizeAt(t, path) > 1 && |path| < room
    ensures ConstantAt(t, data, path, choices(at + path).attr)
    decreases t
  {
    hide SplitsAt, Below, AtLeast;
    match t
    case External(_) =>
      assert at + path == at;
      ConstantRows(data, choices(at).attr);
    case Split(attr, value, l, r) =>
      PartsFit(data, attr, value, width);
      if path[0] {
        LeavesAreForced(l, Below(data, attr, value), width, room - 1, choices, at + [true], path[1..]);
        assert at + [true] + path[1..] == at + path;
      } else {
        LeavesAreForced(r, AtLeast(data, attr, value), width, room - 1, choices, at + [false], path[1..]);
        assert at + [false] + path[1..] == at + path;
      }
      ConstantAbove(t, data, width, path, choices(at + path).attr);
  }

  lemma ConstantRows(data: seq<Row>, attr: nat)
    requires (forall i :: 0 <= i < |data| ==> attr < |data[i]|) && IsConstant(data, attr)
    ensures forall p, q :: p in data && q in data && attr < |p| && attr < |q| ==> p[attr] == q[attr]
  {
    forall p, q | p in data && q in data && attr < |p| && attr < |q| ensures p[attr] == q[attr] {
      var i :| 0 <= i < |data| && data[i] == p;
      var j :| 0 <= j < |data| && data[j] == q;
      assert i < j ==> data[i][attr] == data[j][attr];
      assert j < i ==> data[j][attr] == data[i][attr];
    }
  }

  lemma ConstantAbove(t: Tree, data: seq<Row>, width: nat, path: seq<bool>, attr: nat)
    requires Rectangular(data, width) && t.Split? && t.attr < width && attr < width && path != []
    requires
      (PartsFit(data, t.attr, t.value, width);
       if path[0] then ConstantAt(t.left, Below(data, t.attr, t.value), path[1..], attr)
       else ConstantAt(t.right, AtLeast(data, t.attr, t.value), path[1..], attr))
    ensures ConstantAt(t, data, path, attr)
  {
    PartsFit(data, t.attr, t.value, width);
    var part := if path[0] then Below(data, t.attr, t.value) else AtLeast(data, t.attr, t.value);
    var child := if path[0] then t.left else t.right;
    forall row | row in data && attr < |row| && Descend(t, row) == path
      ensures row in part && Descend(child, row) == path[1..]
    {
      InParts(data, t.attr, t.value, row);
      assert Descend(t, row)[1..] == Descend(child, row);
    }
  }

  lemma {:induction false} InParts(data: seq<Row>, attr: nat, value: real, row: Row)
    requires (forall i :: 0 <= i < |data| ==> attr < |data[i]|) && row in data
    ensures if row[attr] < value then row in Below(data, attr, value) else row in AtLeast(data, attr, value)
  {
    var n := |data| - 1;
    if row != data[n] {
      assert data == data[..n] + [data[n]];
      InParts(data[..n], attr, value, row);
    }
  }

  /** The tree is the one that the random choices build, so it describes the data within the height. */
  method BuildTree(data: seq<Row>, height: nat, maxHeight: nat, choices: Choices, path: seq<bool>, ghost width: nat)
    returns (t: Tree)
    requires CanDraw(data, width, if height >= maxHeight then 0 else maxHeight - height, choices)
    ensures BuiltBy(t, data, width, if height >= maxHeight then 0 else maxHeight - height, choices, path)
    ensures Describes(t, data, width)
    ensures Height(t) <= if height >= maxHeight then 0 else maxHeight - height
    decreases if height >= maxHeight then 0 else maxHeight - height
  {
    hide Below, AtLeast, IsRange, SplitsAt, IsConstant;
    var n := |data|;
    if height >= maxHeight || n <= 1 {
      return External(n);
    }
    var attr := choices(path).attr;
    var minVal, maxVal := MinMax(data, attr);
    if minVal == maxVal {
      ConstantIfSame(data, attr, minVal);
      return External(n);
    }
    NotConstant(data, attr, minVal, maxVal);
    var fraction, span := choices(path).fraction, maxVal - minVal;
    var splitVal := minVal + fraction * span;
    assert minVal + span == maxVal;
    SplitsThere(data, attr, width, minVal, span, fraction);
    PartsFit(data, attr, splitVal, width);
    var left, right := Partition(data, attr, splitVal);
    if |left| == 0 || |right| == 0 {
      return External(n);
    }
    var l := BuildTree(left, height + 1, maxHeight, choices, path + [true], width);
    var r := BuildTree(right, height + 1, maxHeight, choices, path + [false], width);
    t := Split(attr, splitVal, l, r);
    BuiltDescribes(t, data, width, maxHeight - height, choices, path);
  }

  lemma ConstantIfSame(data: seq<Row>, attr: nat, v: real)
    requires (forall i :: 0 <= i < |data| ==> attr < |data[i]|) && IsRange(data, attr, v, v)
    ensures IsConstant(data, attr)
  {
  }

  lemma NotConstant(data: seq<Row>, attr: nat, lo: real, hi: real)
    requires (forall i :: 0 <= i < |data| ==> attr < |data[i]|) && IsRange(data, attr, lo, hi) && lo != hi
    ensures !IsConstant(data, attr) && lo < hi
  {
    var i :| 0 <= i < |data| && data[i][attr] == lo;
    var j :| 0 <= j < |data| && data[j][attr] == hi;
    assert i < j || j < i;
  }

  // ---- The descent rule ----

  /** The leaf a point reaches, as the turns taken; true is left. A split on a missing attribute ends the descent. */
  function Descend(t: Tree, point: Row): seq<bool> {
    match t
    case External(_) => []
    case Split(attr, value, l, r) =>
      if attr >= |point| then []
      else if point[attr] < value then [true] + Descend(l, point)
      else [false] + Descend(r, point)
  }

  predicate IsLeaf(t: Tree, path: seq<bool>) {
    match t
    case External(_) => path == []
    case Split(_, _, l, r) => path != [] && if path[0] then IsLeaf(l, path[1..]) else IsLeaf(r, path[1..])
  }

  function SizeAt(t: Tree, path: seq<bool>): nat
    requires IsLeaf(t, path)
  {
    match t
    case External(size) => size
    case Split(_, _, l, r) => if path[0] then SizeAt(l, path[1..]) else SizeAt(r, path[1..])
  }

  function CountArrivals(t: Tree, data: seq<Row>, path: seq<bool>): nat {
    if data == [] then 0
    else CountArrivals(t, data[..|data| - 1], path) + if Descend(t, data[|data| - 1]) == path then 1 else 0
  }

  lemma {:induction false} ArrivalsSplit(t: Tree, data: seq<Row>, path: seq<bool>, width: nat)
    requires t.Split? && t.attr < width && Rectangular(data, width) && path != []
    ensures CountArrivals(t, data, path) ==
              if path[0] then CountArrivals(t.left, Below(data, t.attr, t.value), path[1..])
              else CountArrivals(t.right, AtLeast(data, t.attr, t.value), path[1..])
  {
    if data != [] {
      var init, last := data[..|data| - 1], data[|data| - 1];
      ArrivalsSplit(t, init, path, width);
      var below, above := Below(data, t.attr, t.value), AtLeast(data, t.attr, t.value);
      if last[t.attr] < t.value {
        assert below[..|below| - 1] == Below(init, t.attr, t.value) && above == AtLeast(init, t.attr, t.value);
        assert Descend(t, last) == path <==> path[0] && Descend(t.left, last) == path[1..];
      } else {
        assert above[..|above| - 1] == AtLeast(init, t.attr, t.value) && below == Below(init, t.attr, t.value);
        assert Descend(t, last) == path <==> !path[0] && Descend(t.right, last) == path[1..];
      }
    }
  }

  lemma {:induction false} AllArrive(size: nat, data: seq<Row>)
    ensures CountArrivals(External(size), data, []) == |data|
  {
    if data != [] {
      AllArrive(size, data[..|data| - 1]);
    }
  }

  /** Each leaf's size is exactly the number of training rows that descend to it. */
  lemma {:induction false} LeafSizesCountArrivals(t: Tree, data: seq<Row>, width: nat, path: seq<bool>)
    requires Rectangular(data, width) && Describes(t, data, width) && IsLeaf(t, path)
    ensures SizeAt(t, path) == CountArrivals(t, data, path)
    decreases t
  {
    match t
    case External(size) => AllArrive(size, data);
    case Split(attr, value, l, r) =>
      PartsFit(data, attr, value, width);
      ArrivalsSplit(t, data, path, width);
      if path[0] {
        LeafSizesCountArrivals(l, Below(data, attr, value), width, path[1..]);
      } else {
        LeafSizesCountArrivals(r, AtLeast(data, attr, value), width, path[1..]);
      }
  }

  function LeafTotal(t: Tree): nat {
    match t
    case External(size) => size
    case Split(_, _, l, r) => LeafTotal(l) + LeafTotal(r)
  }

  /** The leaf sizes add up to the number of rows. */
  lemma {:induction false} LeavesPartition(t: Tree, data: seq<Row>, width: nat)
    requires Rectangular(data, width) && Describes(t, data, width)
    ensures LeafTotal(t) == |data|
    decreases t
  {
    match t
    case External(_) =>
    case Split(attr, value, l, r) =>
      PartsFit(data, attr, value, width);
      LeavesPartition(l, Below(data, attr, value), width);
      LeavesPartition(r, AtLeast(data, attr, value), width);
  }

  /** Every training row ends in a leaf, after at most as many turns as the tree is high. */
  lemma {:induction false} RowsReachLeaves(t: Tree, data: seq<Row>, width: nat, row: Row)
    requires Rectangular(data, width) && Describes(t, data, width) && |row| == width
    ensures IsLeaf(t, Descend(t, row)) && |Descend(t, row)| <= Height(t)
    decreases t
  {
    match t
    case External(_) =>
    case Split(attr, value, l, r) =>
      PartsFit(data, attr, value, width);
      if row[attr] < value {
        RowsReachLeaves(l, Below(data, attr, value), width, row);
      } else {
        RowsReachLeaves(r, AtLeast(data, attr, value), width, row);
      }
  }

  /** A split at the minimum leaves the left side empty; above it, below the maximum, both sides have rows. */
  lemma SplitIsProperIff(data: seq<Row>, attr: nat, width: nat, minVal: real, span: real, fraction: real)
    requires Rectangular(data, width) && attr < width && 0.0 <= fraction < 1.0 && span > 0.0
    requires IsRange(data, attr, minVal, minVal + span)
    ensures var v := minVal + fraction * span;
            (Below(data, attr, v) != [] && AtLeast(data, attr, v) != []) <==> fraction > 0.0
  {
    hide Below, AtLeast, IsRange;
    Shrinks(fraction, span);
    SplitAt(data, attr, minVal, minVal + span, minVal + fraction * span);
  }

  lemma SplitAt(data: seq<Row>, attr: nat, minVal: real, maxVal: real, v: real)
    requires (forall i :: 0 <= i < |data| ==> attr < |data[i]|) && IsRange(data, attr, minVal, maxVal)
    requires minVal <= v < maxVal
    ensures (Below(data, attr, v) != [] && AtLeast(data, attr, v) != []) <==> v > minVal
  {
    hide Below, AtLeast;
    BelowHas(data, attr, v);
    AtLeastHas(data, attr, v);
    var lowest :| 0 <= lowest < |data| && data[lowest][attr] == minVal;
    var highest :| 0 <= highest < |data| && data[highest][attr] == maxVal;
    assert data[highest][attr] >= v;
    assert v > minVal ==> data[lowest][attr] < v;
  }

  lemma {:induction false} BelowHas(data: seq<Row>, attr: nat, value: real)
    requires forall i :: 0 <= i < |data| ==> attr < |data[i]|
    ensures Below(data, attr, value) != [] <==> exists i :: 0 <= i < |data| && data[i][attr] < value
  {
    if data != [] {
      var init, last := data[..|data| - 1], data[|data| - 1];
      BelowHas(init, attr, value);
      assert forall i :: 0 <= i < |init| ==> init[i] == data[i];
    }
  }

  lemma {:induction false} AtLeastHas(data: seq<Row>, attr: nat, value: real)
    requires forall i :: 0 <= i < |data| ==> attr < |data[i]|
    ensures AtLeast(data, attr, value) != [] <==> exists i :: 0 <= i < |data| && data[i][attr] >= value
  {
    if data != [] {
      var init, last := data[..|data| - 1], data[|data| - 1];
      AtLeastHas(init, attr, value);
      assert forall i :: 0 <= i < |init| ==> init[i] == data[i];
    }
  }
}
