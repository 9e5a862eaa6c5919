/** Vertex welding: the `sharedVertices` branch of UploadMesh. Every raw
    vertex key is replaced by the index of the first vertex with the same
    key, and the distinct keys are kept in the order they first occur. */
module Weld {

  predicate NoDup<K(==)>(s: seq<K>)
  {
    forall i, j :: 0 <= i < j < |s| ==> s[i] != s[j]
  }

  predicate HasRepeat<K(==)>(s: seq<K>)
  {
    exists i, j :: 0 <= i < j < |s| && s[i] == s[j]
  }

  /** The distinct keys of s, in order of first occurrence. */
  function Distinct<K(==)>(s: seq<K>): (d: seq<K>)
    ensures NoDup(d)
    ensures forall i :: 0 <= i < |d| ==> d[i] in s
    ensures forall i :: 0 <= i < |s| ==> s[i] in d
    ensures |d| <= |s|
  {
    if |s| == 0 then []
    else
      var p := Distinct(s[..|s| - 1]);
      var last := s[|s| - 1];
      assert s == s[..|s| - 1] + [last];
      if last in p then p else p + [last]
  }

  /** Position of k in a duplicate-free sequence. */
  function IndexOf<K(==)>(d: seq<K>, k: K): (i: nat)
    requires k in d
    ensures i < |d| && d[i] == k
    ensures forall j :: 0 <= j < i ==> d[j] != k
  {
    if d[0] == k then 0 else 1 + IndexOf(d[1..], k)
  }

  /** The welded index list: one entry per raw vertex. */
  function WeldIndices<K(==)>(s: seq<K>): (r: seq<int>)
    ensures |r| == |s|
  {
    seq(|s|, i requires 0 <= i < |s| => IndexOf(Distinct(s), s[i]))
  }

  /** The dictionary loop: `vertexIndices` maps each key seen so far to its
      position in `keys`, the keys in insertion order (the order in which
      Dictionary enumerates its keys when nothing has been removed). */
  method WeldVertices<K(==)>(vertices: seq<K>) returns (keys: seq<K>, sharedTriangles: seq<int>)
    ensures keys == Distinct(vertices)
    ensures |sharedTriangles| == |vertices|
    ensures forall i :: 0 <= i < |vertices| ==>
              0 <= sharedTriangles[i] < |keys| && keys[sharedTriangles[i]] == vertices[i]
  {
    var vertexIndices: map<K, int> := map[];
    keys := [];
    sharedTriangles := [];
    for i := 0 to |vertices|
      invariant WeldState(vertices, i, vertexIndices, keys, sharedTriangles)
    {
      var key := vertices[i];
      WeldStep(vertices, i, vertexIndices, keys, sharedTriangles);
      if key !in vertexIndices {
        vertexIndices := vertexIndices[key := |vertexIndices|];
        keys := keys + [key];
      }
      sharedTriangles := sharedTriangles + [vertexIndices[key]];
    }
    assert vertices[..|vertices|] == vertices;
  }

  /** The loop invariant of WeldVertices after the first i raw vertices. */
  ghost predicate WeldState<K>(vertices: seq<K>, i: int, m: map<K, int>, keys: seq<K>, shared: seq<int>)
  {
    0 <= i <= |vertices| &&
    keys == Distinct(vertices[..i]) &&
    IndexMap(m, keys) &&
    |shared| == i &&
    forall j :: 0 <= j < i ==> 0 <= shared[j] < |keys| && keys[shared[j]] == vertices[j]
  }

  lemma WeldStep<K>(vertices: seq<K>, i: int, m: map<K, int>, keys: seq<K>, shared: seq<int>)
    requires WeldState(vertices, i, m, keys, shared) && i < |vertices|
    ensures var key := vertices[i];
            var m' := if key in m then m else m[key := |m|];
            var keys' := if key in m then keys else keys + [key];
            key in m' && WeldState(vertices, i + 1, m', keys', shared + [m'[key]])
  {
    var key := vertices[i];
    IndexMapMembers(m, keys, key);
    var m' := if key in m then m else m[key := |m|];
    var keys' := if key in m then keys else keys + [key];
    if key !in m {
      AddToIndexMap(m, keys, key);
    }
    DistinctStep(vertices, i);
    SharedStep(vertices, i, keys, keys', shared, m'[key]);
  }

  lemma DistinctStep<K>(vertices: seq<K>, i: int)
    requires 0 <= i < |vertices|
    ensures Distinct(vertices[..i + 1]) ==
            if vertices[i] in Distinct(vertices[..i]) then Distinct(vertices[..i])
            else Distinct(vertices[..i]) + [vertices[i]]
  {
    var prefix := vertices[..i + 1];
    assert prefix[..|prefix| - 1] == vertices[..i];
  }

  lemma SharedStep<K>(vertices: seq<K>, i: int, keys: seq<K>, keys': seq<K>, shared: seq<int>, n: int)
    requires 0 <= i < |vertices| && |shared| == i
    requires keys <= keys'
    requires forall j :: 0 <= j < i ==> 0 <= shared[j] < |keys| && keys[shared[j]] == vertices[j]
    requires 0 <= n < |keys'| && keys'[n] == vertices[i]
    ensures forall j :: 0 <= j < i + 1 ==>
              0 <= (shared + [n])[j] < |keys'| && keys'[(shared + [n])[j]] == vertices[j]
  {
    forall j | 0 <= j < i + 1
      ensures 0 <= (shared + [n])[j] < |keys'| && keys'[(shared + [n])[j]] == vertices[j]
    {
      if j < i {
        assert (shared + [n])[j] == shared[j];
        assert keys'[shared[j]] == keys[shared[j]];
      }
    }
  }

  /** m maps every key of the duplicate-free list keys to its position, and
      holds nothing else. */
  ghost predicate IndexMap<K>(m: map<K, int>, keys: seq<K>)
  {
    |m| == |keys| &&
    (forall i :: 0 <= i < |keys| ==> keys[i] in m) &&
    (forall k :: k in m ==> 0 <= m[k] < |keys| && keys[m[k]] == k)
  }

  lemma IndexMapMembers<K>(m: map<K, int>, keys: seq<K>, key: K)
    requires IndexMap(m, keys)
    ensures key in m <==> key in keys
  {
    if key in keys {
      var i :| 0 <= i < |keys| && keys[i] == key;
    }
  }

  lemma AddToIndexMap<K>(m: map<K, int>, keys: seq<K>, key: K)
    requires IndexMap(m, keys) && key !in m
    ensures IndexMap(m[key := |m|], keys + [key])
  {
    var m', keys' := m[key := |m|], keys + [key];
    assert |m'| == |m| + 1;
    forall k | k in m' ensures 0 <= m'[k] < |keys'| && keys'[m'[k]] == k {
      if k != key {
        assert k in m;
      }
    }
  }

  /** The weld's output is exactly determined: the index of each raw vertex
      is the position of its key among the distinct keys. */
  lemma WeldIndicesUnique<K>(vertices: seq<K>, shared: seq<int>)
    requires |shared| == |vertices|
    requires forall i :: 0 <= i < |vertices| ==>
               0 <= shared[i] < |Distinct(vertices)| && Distinct(vertices)[shared[i]] == vertices[i]
    ensures shared == WeldIndices(vertices)
  {
    var d := Distinct(vertices);
    forall i | 0 <= i < |vertices|
      ensures shared[i] == WeldIndices(vertices)[i]
    {
      var j := IndexOf(d, vertices[i]);
      if shared[i] < j {
        assert d[shared[i]] == vertices[i];
      } else if j < shared[i] {
        assert d[j] == d[shared[i]];
      }
    }
  }

  /** Welding a longer list only appends keys: the keys of a prefix are a
      prefix of the keys of the whole list. */
  lemma {:induction false} DistinctPrefix<K>(s: seq<K>, n: nat)
    requires n <= |s|
    ensures Distinct(s[..n]) <= Distinct(s)
    decreases |s| - n
  {
    if n < |s| {
      DistinctPrefix(s, n + 1);
      DistinctStep(s, n);
      PrefixTransitive(Distinct(s[..n]), Distinct(s[..n + 1]), Distinct(s));
    } else {
      assert s[..n] == s;
    }
  }

  lemma PrefixTransitive<K>(a: seq<K>, b: seq<K>, c: seq<K>)
    requires a <= b && b <= c
    ensures a <= c
  {
    assert c[..|a|] == b[..|a|];
  }

  /** The welded key list is strictly shorter than the raw list exactly
      when some key repeats. */
  lemma {:induction false} DistinctShorterIffRepeat<K>(s: seq<K>)
    ensures |Distinct(s)| < |s| <==> HasRepeat(s)
  {
    if |s| > 0 {
      var p := s[..|s| - 1];
      var last := s[|s| - 1];
      DistinctShorterIffRepeat(p);
      if last in p {
        var i :| 0 <= i < |p| && p[i] == last;
        assert s[i] == s[|s| - 1];
      } else if HasRepeat(s) {
        var i, j :| 0 <= i < j < |s| && s[i] == s[j];
        assert p[i] == p[j];
      }
    }
  }

  /** With the builders' sequential index list (triangles[k] == k) the weld
      keeps every triangle in place and in its winding: corner j of welded
      triangle t is the key of corner j of raw triangle t. */
  lemma WeldKeepsTriangles<K>(vertices: seq<K>, triangles: seq<int>, t: nat, j: nat)
    requires |triangles| == |vertices| && forall k :: 0 <= k < |triangles| ==> triangles[k] == k
    requires j < 3 && 3 * t + j < |vertices|
    ensures 0 <= WeldIndices(vertices)[3 * t + j] < |Distinct(vertices)|
    ensures Distinct(vertices)[WeldIndices(vertices)[3 * t + j]] == vertices[triangles[3 * t + j]]
  {
  }
}
