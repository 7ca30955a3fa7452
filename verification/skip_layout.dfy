/**
 * The shape of the order-statistic skip list behind ObjectStore
 * (multiplenetwork/include/datastructures.h, lines 177-424), stated over plain values.
 *
 * Entries live in an arena addressed by integer handles; handle HEADER is the
 * sentinel. `fw[h]` holds entry h's forward links, one per level of its tower,
 * and `ln[h]` the matching link lengths (spans). `path` lists the handles met
 * along level 0, the header at position 0 and the k-th smallest key at
 * position k + 1; position is what the spans count.
 */
module SkipLayout {

  /** Highest level index an entry may reach; the header has MAX_LEVEL + 1 links. */
  const MAX_LEVEL: int := 6
  /** The NULL link. */
  const NIL: int := -1
  /** Handle of the header sentinel. */
  const HEADER: int := 0

  /** Every slot has a tower of 1..MAX_LEVEL+1 links with one span per link; the header's tower is full. */
  ghost predicate ArenaShape(fw: seq<seq<int>>, ln: seq<seq<int>>)
  {
    && |fw| == |ln| && 0 < |fw|
    && |fw[HEADER]| == MAX_LEVEL + 1
    && forall h :: 0 <= h < |fw| ==> 1 <= |fw[h]| <= MAX_LEVEL + 1 && |ln[h]| == |fw[h]|
  }

  /** The base-level order: the header first, then distinct arena handles. */
  ghost predicate PathShape(fw: seq<seq<int>>, path: seq<int>)
  {
    && 0 < |path| && path[0] == HEADER
    && (forall p :: 0 <= p < |path| ==> 0 <= path[p] < |fw|)
    && (forall p, q :: 0 <= p < q < |path| ==> path[p] != path[q])
  }

  /** Highest level index of the entry at position r (-1 outside the path). */
  ghost function Height(fw: seq<seq<int>>, path: seq<int>, r: int): int
  {
    if 0 <= r < |path| && 0 <= path[r] < |fw| then |fw[path[r]]| - 1 else -1
  }

  /** Highest level in use at position p: the header takes part up to the store's current level. */
  ghost function Top(fw: seq<seq<int>>, path: seq<int>, level: int, p: int): int
  {
    if p == 0 then level else Height(fw, path, p)
  }

  /**
   * The level-i link of the entry at position p is sound: a non-NULL link points
   * at the next position q whose tower reaches level i, skips only lower towers,
   * and its length is q - p; a NULL link has no tower of level i after it and
   * its length reaches one past the last position, |path| (size() + 1). The one
   * exception is the level-0 length of a header that has never had a successor:
   * the constructor leaves it at 0.
   */
  ghost predicate LinkOK(fw: seq<seq<int>>, ln: seq<seq<int>>, path: seq<int>, p: int, i: int)
  {
    && 0 <= p < |path| && 0 <= path[p] < |fw| && path[p] < |ln|
    && 0 <= i < |fw[path[p]]| && i < |ln[path[p]]|
    && if fw[path[p]][i] == NIL then
         && (forall r :: p < r < |path| ==> Height(fw, path, r) < i)
         && (p + ln[path[p]][i] == |path| || (i == 0 && |path| == 1 && ln[path[p]][i] == 0))
       else
         var q := p + ln[path[p]][i];
         && p < q < |path|
         && (forall r :: p < r < q ==> Height(fw, path, r) < i)
         && i <= Height(fw, path, q) && fw[path[p]][i] == path[q]
  }

  /** A well-formed skip list whose current top level is `level`. */
  ghost predicate Links(fw: seq<seq<int>>, ln: seq<seq<int>>, path: seq<int>, level: int)
  {
    && ArenaShape(fw, ln) && PathShape(fw, path)
    && 0 <= level <= MAX_LEVEL
    && (forall r :: 0 < r < |path| ==> Height(fw, path, r) <= level)
    && (forall i :: level < i <= MAX_LEVEL ==> fw[HEADER][i] == NIL)
    && (forall p, i :: 0 <= p < |path| && 0 <= i <= Top(fw, path, level, p) ==> LinkOK(fw, ln, path, p, i))
  }

  /** The current level is 0 or the header still has a link there. */
  ghost predicate Tight(fw: seq<seq<int>>, level: int)
    requires 0 < |fw| && 0 <= level < |fw[HEADER]|
  {
    level == 0 || fw[HEADER][level] != NIL
  }

  ghost predicate StrictlySorted(keys: seq<int>)
  {
    forall a, b :: 0 <= a < b < |keys| ==> keys[a] < keys[b]
  }

  /** Level 0 links every entry to the next position with a length of one. */
  lemma BaseLink(fw: seq<seq<int>>, ln: seq<seq<int>>, path: seq<int>, level: int, p: int)
    requires Links(fw, ln, path, level) && 0 <= p < |path|
    ensures fw[path[p]][0] == if p + 1 < |path| then path[p + 1] else NIL
    ensures p + 1 < |path| ==> ln[path[p]][0] == 1
  {
    assert LinkOK(fw, ln, path, p, 0);
    if p + 1 < |path| {
      assert 0 <= Height(fw, path, p + 1);
    }
  }

  /**
   * One step of a descent: at level i the link from position px is NULL or stops
   * at a key that is not below v, so no later entry with a key below v reaches level i.
   */
  lemma StepDown(fw: seq<seq<int>>, ln: seq<seq<int>>, path: seq<int>, level: int, keys: seq<int>,
                 v: int, px: int, i: int)
    requires Links(fw, ln, path, level) && |keys| == |path| - 1 && StrictlySorted(keys)
    requires 0 <= px < |path| && 0 <= i <= Top(fw, path, level, px)
    requires fw[path[px]][i] == NIL || (var q := px + ln[path[px]][i]; 0 < q < |path| && v <= keys[q - 1])
    ensures forall r :: px < r < |path| && keys[r - 1] < v ==> Height(fw, path, r) < i
  {
    assert LinkOK(fw, ln, path, px, i);
    forall r | px < r < |path| && keys[r - 1] < v
      ensures Height(fw, path, r) < i
    {
      if fw[path[px]][i] != NIL {
        assert r < px + ln[path[px]][i];
      }
    }
  }

  /** The level-i link of position p reads only its own slot and the heights of the towers. */
  lemma LinkOKFrame(fw: seq<seq<int>>, ln: seq<seq<int>>, fw': seq<seq<int>>, ln': seq<seq<int>>,
                    path: seq<int>, p: int, i: int)
    requires |fw'| == |fw| && |ln'| == |ln|
    requires forall h :: 0 <= h < |fw| ==> |fw'[h]| == |fw[h]|
    requires forall h :: 0 <= h < |ln| ==> |ln'[h]| == |ln[h]|
    requires 0 <= p < |path| && 0 <= path[p] < |fw| && path[p] < |ln|
    requires 0 <= i < |fw[path[p]]| && i < |ln[path[p]]|
    requires fw'[path[p]][i] == fw[path[p]][i] && ln'[path[p]][i] == ln[path[p]][i]
    requires LinkOK(fw, ln, path, p, i)
    ensures LinkOK(fw', ln', path, p, i)
  {
    assert forall r :: Height(fw', path, r) == Height(fw, path, r);
  }

  /**
   * ups[j], for every level j up to top, is the position of the level-j
   * predecessor of the gap after position s: the last position at or before s
   * whose tower reaches level j.
   */
  ghost predicate Predecessors(fw: seq<seq<int>>, path: seq<int>, level: int, ups: seq<int>, s: int, top: int)
  {
    && |ups| == MAX_LEVEL + 1 && 0 <= s < |path| && top <= MAX_LEVEL
    && forall j :: 0 <= j <= top ==>
         && 0 <= ups[j] <= s && j <= Top(fw, path, level, ups[j])
         && (forall r :: ups[j] < r <= s ==> Height(fw, path, r) < j)
  }

  /** A level-i link that starts at or before s and is not the predecessor's ends at or before s. */
  lemma Crossing(fw: seq<seq<int>>, ln: seq<seq<int>>, path: seq<int>, level: int, u: int, s: int, i: int, p: int)
    requires Links(fw, ln, path, level)
    requires 0 <= u <= s < |path| && 0 <= i <= Top(fw, path, level, u)
    requires forall r :: u < r <= s ==> Height(fw, path, r) < i
    requires 0 <= p <= s && 0 <= i <= Top(fw, path, level, p)
    ensures p == u || (fw[path[p]][i] != NIL && p + ln[path[p]][i] <= s)
  {
    assert LinkOK(fw, ln, path, p, i);
    assert p <= u;
    if p < u {
      assert i <= Height(fw, path, u);
    }
  }

  /** The predecessor's non-NULL link at level i passes beyond s. */
  lemma PredecessorSpansGap(fw: seq<seq<int>>, ln: seq<seq<int>>, path: seq<int>, level: int, u: int, s: int, i: int)
    requires Links(fw, ln, path, level)
    requires 0 <= u <= s < |path| && 0 <= i <= Top(fw, path, level, u)
    requires forall r :: u < r <= s ==> Height(fw, path, r) < i
    ensures fw[path[u]][i] != NIL ==> s < u + ln[path[u]][i]
  {
    assert LinkOK(fw, ln, path, u, i);
  }

  /** The base-level order after handle x is placed right after position s. */
  ghost function Inserted(path: seq<int>, s: int, x: int): seq<int>
    requires 0 <= s < |path|
  {
    path[..s + 1] + [x] + path[s + 1..]
  }

  lemma InsertedAt(path: seq<int>, s: int, x: int)
    requires 0 <= s < |path|
    ensures |Inserted(path, s, x)| == |path| + 1
    ensures forall r :: 0 <= r <= s ==> Inserted(path, s, x)[r] == path[r]
    ensures Inserted(path, s, x)[s + 1] == x
    ensures forall r :: s + 1 < r < |path| + 1 ==> Inserted(path, s, x)[r] == path[r - 1]
  {
  }

  /** Towers keep their heights when x is placed after position s. */
  lemma InsertedHeights(fw0: seq<seq<int>>, fw: seq<seq<int>>, path: seq<int>, s: int, x: int)
    requires |fw| == |fw0| && forall h :: 0 <= h < |fw0| ==> |fw[h]| == |fw0[h]|
    requires PathShape(fw0, path) && 0 <= s < |path| && 0 <= x < |fw0|
    ensures forall r :: 0 <= r <= s ==> Height(fw, Inserted(path, s, x), r) == Height(fw0, path, r)
    ensures forall r :: s + 1 < r < |path| + 1 ==> Height(fw, Inserted(path, s, x), r) == Height(fw0, path, r - 1)
    ensures Height(fw, Inserted(path, s, x), s + 1) == |fw0[x]| - 1
  {
    InsertedAt(path, s, x);
  }

  /** The shape facts that every step of an insertion relies on. */
  ghost predicate InsertSetting(fw0: seq<seq<int>>, ln0: seq<seq<int>>, fw: seq<seq<int>>, ln: seq<seq<int>>,
                                path: seq<int>, level: int, s: int, x: int)
  {
    && Links(fw0, ln0, path, level)
    && |fw| == |fw0| && |ln| == |ln0|
    && (forall h :: 0 <= h < |fw0| ==> |fw[h]| == |fw0[h]| && |ln[h]| == |ln0[h]|)
    && 0 <= s < |path| && 0 <= x < |fw0|
    && (forall p :: 0 <= p < |path| ==> path[p] != x)
    && |fw0[x]| - 1 <= level
  }

  /** A link that neither starts at the predecessor nor crosses the gap keeps its meaning before the gap. */
  lemma KeepBefore(fw0: seq<seq<int>>, ln0: seq<seq<int>>, fw: seq<seq<int>>, ln: seq<seq<int>>,
                   path: seq<int>, level: int, s: int, x: int, i: int, u: int, p: int)
    requires InsertSetting(fw0, ln0, fw, ln, path, level, s, x)
    requires 0 <= u <= s && 0 <= i <= Top(fw0, path, level, u)
    requires forall r :: u < r <= s ==> Height(fw0, path, r) < i
    requires 0 <= p <= s && p != u && i <= Top(fw0, path, level, p)
    requires fw[path[p]][i] == fw0[path[p]][i] && ln[path[p]][i] == ln0[path[p]][i]
    ensures LinkOK(fw, ln, Inserted(path, s, x), p, i)
  {
    InsertedAt(path, s, x);
    InsertedHeights(fw0, fw, path, s, x);
    Crossing(fw0, ln0, path, level, u, s, i, p);
    assert LinkOK(fw0, ln0, path, p, i);
  }

  /** A link that starts after the gap moves up by one position together with its target. */
  lemma KeepAfter(fw0: seq<seq<int>>, ln0: seq<seq<int>>, fw: seq<seq<int>>, ln: seq<seq<int>>,
                  path: seq<int>, level: int, s: int, x: int, i: int, p: int)
    requires InsertSetting(fw0, ln0, fw, ln, path, level, s, x)
    requires s < p < |path| && 0 <= i <= Top(fw0, path, level, p)
    requires fw[path[p]][i] == fw0[path[p]][i] && ln[path[p]][i] == ln0[path[p]][i]
    ensures LinkOK(fw, ln, Inserted(path, s, x), p + 1, i)
  {
    var path2 := Inserted(path, s, x);
    InsertedAt(path, s, x);
    InsertedHeights(fw0, fw, path, s, x);
    assert LinkOK(fw0, ln0, path, p, i);
    assert forall r :: p + 1 < r < |path| + 1 ==> Height(fw, path2, r) == Height(fw0, path, r - 1);
  }

  /** After the splice at level i the predecessor links to the new entry. */
  lemma LinkPredecessor(fw0: seq<seq<int>>, ln0: seq<seq<int>>, fw: seq<seq<int>>, ln: seq<seq<int>>,
                        path: seq<int>, level: int, s: int, x: int, i: int, u: int)
    requires InsertSetting(fw0, ln0, fw, ln, path, level, s, x)
    requires 0 <= u <= s && 0 <= i <= Top(fw0, path, level, u) && i < |fw0[x]|
    requires forall r :: u < r <= s ==> Height(fw0, path, r) < i
    requires fw[path[u]][i] == x && ln[path[u]][i] == s - u + 1
    ensures LinkOK(fw, ln, Inserted(path, s, x), u, i)
  {
    InsertedAt(path, s, x);
    InsertedHeights(fw0, fw, path, s, x);
  }

  /** After the splice at level i the new entry takes over the predecessor's old link. */
  lemma LinkNewEntry(fw0: seq<seq<int>>, ln0: seq<seq<int>>, fw: seq<seq<int>>, ln: seq<seq<int>>,
                     path: seq<int>, level: int, s: int, x: int, i: int, u: int)
    requires InsertSetting(fw0, ln0, fw, ln, path, level, s, x)
    requires 0 <= u <= s && 0 <= i <= Top(fw0, path, level, u) && i < |fw0[x]|
    requires forall r :: u < r <= s ==> Height(fw0, path, r) < i
    requires fw[x][i] == fw0[path[u]][i]
    requires ln[x][i] == if fw0[path[u]][i] == NIL then |path| - s else ln0[path[u]][i] - (s - u)
    ensures LinkOK(fw, ln, Inserted(path, s, x), s + 1, i)
  {
    var path2 := Inserted(path, s, x);
    InsertedAt(path, s, x);
    InsertedHeights(fw0, fw, path, s, x);
    PredecessorSpansGap(fw0, ln0, path, level, u, s, i);
    assert LinkOK(fw0, ln0, path, u, i);
    assert forall r :: s + 1 < r < |path| + 1 ==> Height(fw, path2, r) == Height(fw0, path, r - 1);
  }

  /** Above the new entry's tower the predecessor's link now jumps one more position. */
  lemma WidenPredecessor(fw0: seq<seq<int>>, ln0: seq<seq<int>>, fw: seq<seq<int>>, ln: seq<seq<int>>,
                         path: seq<int>, level: int, s: int, x: int, i: int, u: int)
    requires InsertSetting(fw0, ln0, fw, ln, path, level, s, x)
    requires 0 <= u <= s && 0 <= i <= Top(fw0, path, level, u) && |fw0[x]| <= i
    requires forall r :: u < r <= s ==> Height(fw0, path, r) < i
    requires fw[path[u]][i] == fw0[path[u]][i] && ln[path[u]][i] == ln0[path[u]][i] + 1
    ensures LinkOK(fw, ln, Inserted(path, s, x), u, i)
  {
    var path2 := Inserted(path, s, x);
    InsertedAt(path, s, x);
    InsertedHeights(fw0, fw, path, s, x);
    PredecessorSpansGap(fw0, ln0, path, level, u, s, i);
    assert LinkOK(fw0, ln0, path, u, i);
    assert forall r :: s + 1 < r < |path| + 1 ==> Height(fw, path2, r) == Height(fw0, path, r - 1);
  }

  /** The level-i splice of the new entry x after position s, with u the level-i predecessor. */
  lemma SpliceAt(fw0: seq<seq<int>>, ln0: seq<seq<int>>, fw: seq<seq<int>>, ln: seq<seq<int>>,
                 path: seq<int>, level: int, s: int, x: int, i: int, u: int, p2: int)
    requires InsertSetting(fw0, ln0, fw, ln, path, level, s, x)
    requires 0 <= u <= s && 0 <= i <= Top(fw0, path, level, u) && i < |fw0[x]|
    requires forall r :: u < r <= s ==> Height(fw0, path, r) < i
    requires forall h :: 0 <= h < |fw0| && h != path[u] && h != x && i < |fw0[h]| ==>
               fw[h][i] == fw0[h][i] && ln[h][i] == ln0[h][i]
    requires fw[path[u]][i] == x && ln[path[u]][i] == s - u + 1
    requires fw[x][i] == fw0[path[u]][i]
    requires ln[x][i] == if fw0[path[u]][i] == NIL then |path| - s else ln0[path[u]][i] - (s - u)
    requires 0 <= p2 < |path| + 1 && i <= Top(fw, Inserted(path, s, x), level, p2)
    ensures LinkOK(fw, ln, Inserted(path, s, x), p2, i)
  {
    InsertedAt(path, s, x);
    InsertedHeights(fw0, fw, path, s, x);
    if p2 == s + 1 {
      LinkNewEntry(fw0, ln0, fw, ln, path, level, s, x, i, u);
    } else if p2 == u {
      LinkPredecessor(fw0, ln0, fw, ln, path, level, s, x, i, u);
    } else if p2 <= s {
      KeepBefore(fw0, ln0, fw, ln, path, level, s, x, i, u, p2);
    } else {
      KeepAfter(fw0, ln0, fw, ln, path, level, s, x, i, p2 - 1);
    }
  }

  /** Above the new entry's tower (level i > its height) only the predecessor's span grows. */
  lemma WidenAt(fw0: seq<seq<int>>, ln0: seq<seq<int>>, fw: seq<seq<int>>, ln: seq<seq<int>>,
                path: seq<int>, level: int, s: int, x: int, i: int, u: int, p2: int)
    requires InsertSetting(fw0, ln0, fw, ln, path, level, s, x)
    requires 0 <= u <= s && 0 <= i <= Top(fw0, path, level, u) && |fw0[x]| <= i
    requires forall r :: u < r <= s ==> Height(fw0, path, r) < i
    requires forall h :: 0 <= h < |fw0| && h != path[u] && i < |fw0[h]| ==>
               fw[h][i] == fw0[h][i] && ln[h][i] == ln0[h][i]
    requires fw[path[u]][i] == fw0[path[u]][i] && ln[path[u]][i] == ln0[path[u]][i] + 1
    requires 0 <= p2 < |path| + 1 && i <= Top(fw, Inserted(path, s, x), level, p2)
    ensures LinkOK(fw, ln, Inserted(path, s, x), p2, i)
  {
    InsertedAt(path, s, x);
    InsertedHeights(fw0, fw, path, s, x);
    if p2 == u {
      WidenPredecessor(fw0, ln0, fw, ln, path, level, s, x, i, u);
    } else if p2 <= s {
      KeepBefore(fw0, ln0, fw, ln, path, level, s, x, i, u, p2);
    } else if s + 1 < p2 {
      KeepAfter(fw0, ln0, fw, ln, path, level, s, x, i, p2 - 1);
    }
  }

  /**
   * Progress of a splice loop over levels: below level i every link already
   * satisfies the span invariant over the new base-level order path2; from level
   * i up every slot still holds its value in (fw0, ln0).
   */
  ghost predicate SplicedBelow(fw: seq<seq<int>>, ln: seq<seq<int>>, fw0: seq<seq<int>>, ln0: seq<seq<int>>,
                               path2: seq<int>, level: int, i: int)
  {
    && |fw| == |fw0| && |ln| == |ln0| && |ln0| == |fw0|
    && (forall h :: 0 <= h < |fw0| ==> |fw[h]| == |fw0[h]| && |ln[h]| == |ln0[h]| && |ln0[h]| == |fw0[h]|)
    && (forall h, j :: 0 <= h < |fw0| && 0 <= j && i <= j < |fw0[h]| ==>
          fw[h][j] == fw0[h][j] && ln[h][j] == ln0[h][j])
    && (forall p, j :: 0 <= p < |path2| && 0 <= j < i && j <= Top(fw, path2, level, p) ==> LinkOK(fw, ln, path2, p, j))
  }

  /** One iteration of the insertion's splice loop (level i within the new entry's tower). */
  lemma SpliceStep(fw0: seq<seq<int>>, ln0: seq<seq<int>>, fwA: seq<seq<int>>, lnA: seq<seq<int>>,
                   fw: seq<seq<int>>, ln: seq<seq<int>>, path: seq<int>, level: int, s: int, x: int,
                   ups: seq<int>, i: int)
    requires InsertSetting(fw0, ln0, fwA, lnA, path, level, s, x)
    requires Predecessors(fw0, path, level, ups, s, level)
    requires 0 <= i < |fw0[x]|
    requires SplicedBelow(fwA, lnA, fw0, ln0, Inserted(path, s, x), level, i)
    requires |fw| == |fwA| && |ln| == |lnA|
    requires forall h :: 0 <= h < |fwA| ==> |fw[h]| == |fwA[h]| && |ln[h]| == |lnA[h]|
    requires forall h, j :: 0 <= h < |fwA| && 0 <= j < |fwA[h]| && (j != i || (h != path[ups[i]] && h != x)) ==>
               fw[h][j] == fwA[h][j] && ln[h][j] == lnA[h][j]
    requires fw[path[ups[i]]][i] == x && ln[path[ups[i]]][i] == s - ups[i] + 1
    requires fw[x][i] == fwA[path[ups[i]]][i]
    requires ln[x][i] == if fwA[path[ups[i]]][i] == NIL then |path| - s else lnA[path[ups[i]]][i] - (s - ups[i])
    ensures SplicedBelow(fw, ln, fw0, ln0, Inserted(path, s, x), level, i + 1)
  {
    var path2 := Inserted(path, s, x);
    var u := ups[i];
    InsertedAt(path, s, x);
    assert InsertSetting(fw0, ln0, fw, ln, path, level, s, x);
    forall p2, j | 0 <= p2 < |path2| && 0 <= j < i + 1 && j <= Top(fw, path2, level, p2)
      ensures LinkOK(fw, ln, path2, p2, j)
    {
      assert Top(fw, path2, level, p2) == Top(fwA, path2, level, p2);
      if j < i {
        LinkOKFrame(fwA, lnA, fw, ln, path2, p2, j);
      } else {
        SpliceAt(fw0, ln0, fw, ln, path, level, s, x, i, u, p2);
      }
    }
  }

  /** One iteration of the insertion's second loop (level i above the new entry's tower). */
  lemma WidenStep(fw0: seq<seq<int>>, ln0: seq<seq<int>>, fwA: seq<seq<int>>, lnA: seq<seq<int>>,
                  fw: seq<seq<int>>, ln: seq<seq<int>>, path: seq<int>, level: int, s: int, x: int,
                  ups: seq<int>, i: int)
    requires InsertSetting(fw0, ln0, fwA, lnA, path, level, s, x)
    requires Predecessors(fw0, path, level, ups, s, level)
    requires |fw0[x]| <= i <= level
    requires SplicedBelow(fwA, lnA, fw0, ln0, Inserted(path, s, x), level, i)
    requires fw == fwA && |ln| == |lnA|
    requires forall h :: 0 <= h < |lnA| ==> |ln[h]| == |lnA[h]|
    requires forall h, j :: 0 <= h < |lnA| && 0 <= j < |lnA[h]| && (j != i || h != path[ups[i]]) ==> ln[h][j] == lnA[h][j]
    requires ln[path[ups[i]]][i] == lnA[path[ups[i]]][i] + 1
    ensures SplicedBelow(fw, ln, fw0, ln0, Inserted(path, s, x), level, i + 1)
  {
    var path2 := Inserted(path, s, x);
    var u := ups[i];
    InsertedAt(path, s, x);
    assert InsertSetting(fw0, ln0, fw, ln, path, level, s, x);
    forall p2, j | 0 <= p2 < |path2| && 0 <= j < i + 1 && j <= Top(fw, path2, level, p2)
      ensures LinkOK(fw, ln, path2, p2, j)
    {
      if j < i {
        LinkOKFrame(fwA, lnA, fw, ln, path2, p2, j);
      } else {
        WidenAt(fw0, ln0, fw, ln, path, level, s, x, i, u, p2);
      }
    }
  }

  /** When every level is done, the new arena is a well-formed skip list over the new order. */
  lemma SplicedLinks(fw0: seq<seq<int>>, ln0: seq<seq<int>>, fw: seq<seq<int>>, ln: seq<seq<int>>,
                     path: seq<int>, level: int, s: int, x: int)
    requires InsertSetting(fw0, ln0, fw, ln, path, level, s, x)
    requires SplicedBelow(fw, ln, fw0, ln0, Inserted(path, s, x), level, level + 1)
    ensures Links(fw, ln, Inserted(path, s, x), level)
  {
    var path2 := Inserted(path, s, x);
    InsertedAt(path, s, x);
    InsertedHeights(fw0, fw, path, s, x);
    forall r | 0 < r < |path2|
      ensures Height(fw, path2, r) <= level
    {
      if s + 1 < r {
        assert Height(fw, path2, r) == Height(fw0, path, r - 1);
      }
    }
  }

  /** Appending a fresh slot to the arena changes nothing reachable. */
  lemma AppendSlot(fw: seq<seq<int>>, ln: seq<seq<int>>, path: seq<int>, level: int, tf: seq<int>, tl: seq<int>)
    requires Links(fw, ln, path, level) && 1 <= |tf| <= MAX_LEVEL + 1 && |tl| == |tf|
    ensures Links(fw + [tf], ln + [tl], path, level)
    ensures forall r :: Height(fw + [tf], path, r) == Height(fw, path, r)
  {
    var fw', ln' := fw + [tf], ln + [tl];
    assert forall r :: Height(fw', path, r) == Height(fw, path, r);
    forall p, i | 0 <= p < |path| && 0 <= i <= Top(fw', path, level, p)
      ensures LinkOK(fw', ln', path, p, i)
    {
      assert LinkOK(fw, ln, path, p, i);
    }
  }

  /** A tower as tall as the current level keeps the header's top link non-NULL. */
  lemma TallEntryHoldsHeader(fw: seq<seq<int>>, ln: seq<seq<int>>, path: seq<int>, level: int, r: int)
    requires Links(fw, ln, path, level) && 0 < r < |path| && Height(fw, path, r) == level
    ensures fw[HEADER][level] != NIL
  {
    assert LinkOK(fw, ln, path, 0, level);
  }

  /** The target of a non-NULL top header link is a tower of full current height. */
  lemma HeaderTargetIsTall(fw: seq<seq<int>>, ln: seq<seq<int>>, path: seq<int>, level: int)
    requires Links(fw, ln, path, level) && fw[HEADER][level] != NIL
    ensures 0 < ln[HEADER][level] < |path| && Height(fw, path, ln[HEADER][level]) == level
  {
    assert LinkOK(fw, ln, path, 0, level);
  }

  /** After an insertion the current level is still in use: x's tower reaches it, or the tower that did still does. */
  lemma InsertedTight(fw0: seq<seq<int>>, ln0: seq<seq<int>>, fw: seq<seq<int>>, ln: seq<seq<int>>,
                      path: seq<int>, level: int, s: int, x: int)
    requires InsertSetting(fw0, ln0, fw, ln, path, level, s, x)
    requires Links(fw, ln, Inserted(path, s, x), level)
    requires |fw0[x]| - 1 == level || Tight(fw0, level)
    ensures Tight(fw, level)
  {
    InsertedHeights(fw0, fw, path, s, x);
    if level > 0 {
      if |fw0[x]| - 1 == level {
        TallEntryHoldsHeader(fw, ln, Inserted(path, s, x), level, s + 1);
      } else {
        HeaderTargetIsTall(fw0, ln0, path, level);
        var q := ln0[HEADER][level];
        TallEntryHoldsHeader(fw, ln, Inserted(path, s, x), level, if q <= s then q else q + 1);
      }
    }
  }

  /** A NULL top header link means no tower reaches that level. */
  lemma EmptyTopLevel(fw: seq<seq<int>>, ln: seq<seq<int>>, path: seq<int>, level: int)
    requires Links(fw, ln, path, level) && fw[HEADER][level] == NIL
    ensures forall r :: 0 < r < |path| ==> Height(fw, path, r) < level
  {
    assert LinkOK(fw, ln, path, 0, level);
  }

  /** Lowering the current level past an empty top level keeps the list well formed. */
  lemma DropLevel(fw: seq<seq<int>>, ln: seq<seq<int>>, path: seq<int>, level: int)
    requires Links(fw, ln, path, level) && 0 < level && fw[HEADER][level] == NIL
    ensures Links(fw, ln, path, level - 1)
  {
    EmptyTopLevel(fw, ln, path, level);
    forall p, i | 0 <= p < |path| && 0 <= i <= Top(fw, path, level - 1, p)
      ensures LinkOK(fw, ln, path, p, i)
    {
      assert i <= Top(fw, path, level, p);
    }
  }

  /** The base-level order after the entry at position t is unlinked. */
  ghost function Removed(path: seq<int>, t: int): seq<int>
    requires 0 <= t < |path|
  {
    path[..t] + path[t + 1..]
  }

  lemma RemovedAt(path: seq<int>, t: int)
    requires 0 <= t < |path|
    ensures |Removed(path, t)| == |path| - 1
    ensures forall r :: 0 <= r < t ==> Removed(path, t)[r] == path[r]
    ensures forall r :: t <= r < |path| - 1 ==> Removed(path, t)[r] == path[r + 1]
  {
  }

  /** Towers keep their heights when the entry at position t is unlinked. */
  lemma RemovedHeights(fw0: seq<seq<int>>, fw: seq<seq<int>>, path: seq<int>, t: int)
    requires |fw| == |fw0| && forall h :: 0 <= h < |fw0| ==> |fw[h]| == |fw0[h]|
    requires PathShape(fw0, path) && 0 < t < |path|
    ensures PathShape(fw, Removed(path, t))
    ensures forall r :: 0 <= r < t ==> Height(fw, Removed(path, t), r) == Height(fw0, path, r)
    ensures forall r :: t <= r < |path| - 1 ==> Height(fw, Removed(path, t), r) == Height(fw0, path, r + 1)
  {
    RemovedAt(path, t);
    var path2 := Removed(path, t);
    forall a, b | 0 <= a < b < |path2|
      ensures path2[a] != path2[b]
    {
      var a', b' := if a < t then a else a + 1, if b < t then b else b + 1;
      assert path2[a] == path[a'] && path2[b] == path[b'];
    }
  }

  /** The shape facts that every step of an erasure relies on; t = s + 1 is the erased position. */
  ghost predicate EraseSetting(fw0: seq<seq<int>>, ln0: seq<seq<int>>, fw: seq<seq<int>>, ln: seq<seq<int>>,
                               path: seq<int>, level: int, s: int)
  {
    && Links(fw0, ln0, path, level)
    && |fw| == |fw0| && |ln| == |ln0|
    && (forall h :: 0 <= h < |fw0| ==> |fw[h]| == |fw0[h]| && |ln[h]| == |ln0[h]|)
    && 0 <= s && s + 1 < |path|
  }

  /** A level-i link from the predecessor either reaches the erased entry or passes over it. */
  lemma PredecessorLink(fw0: seq<seq<int>>, ln0: seq<seq<int>>, path: seq<int>, level: int, s: int, i: int, u: int)
    requires Links(fw0, ln0, path, level) && 0 <= s && s + 1 < |path|
    requires 0 <= u <= s && 0 <= i <= Top(fw0, path, level, u)
    requires forall r :: u < r <= s ==> Height(fw0, path, r) < i
    ensures fw0[path[u]][i] == path[s + 1] <==> fw0[path[u]][i] != NIL && u + ln0[path[u]][i] == s + 1
    ensures fw0[path[u]][i] == path[s + 1] ==> i <= Height(fw0, path, s + 1)
    ensures fw0[path[u]][i] != path[s + 1] ==> Height(fw0, path, s + 1) < i
    ensures fw0[path[u]][i] != path[s + 1] && fw0[path[u]][i] != NIL ==> s + 1 < u + ln0[path[u]][i]
  {
    assert LinkOK(fw0, ln0, path, u, i);
    if fw0[path[u]][i] != NIL {
      var q := u + ln0[path[u]][i];
      assert s < q;
      assert fw0[path[u]][i] == path[s + 1] ==> q == s + 1;
    }
  }

  /** A link that ends at or before s is untouched by the erasure. */
  lemma UnlinkBefore(fw0: seq<seq<int>>, ln0: seq<seq<int>>, fw: seq<seq<int>>, ln: seq<seq<int>>,
                     path: seq<int>, level: int, s: int, i: int, u: int, p: int)
    requires EraseSetting(fw0, ln0, fw, ln, path, level, s)
    requires 0 <= u <= s && 0 <= i <= Top(fw0, path, level, u)
    requires forall r :: u < r <= s ==> Height(fw0, path, r) < i
    requires 0 <= p <= s && p != u && i <= Top(fw0, path, level, p)
    requires fw[path[p]][i] == fw0[path[p]][i] && ln[path[p]][i] == ln0[path[p]][i]
    ensures LinkOK(fw, ln, Removed(path, s + 1), p, i)
  {
    RemovedAt(path, s + 1);
    RemovedHeights(fw0, fw, path, s + 1);
    Crossing(fw0, ln0, path, level, u, s, i, p);
    assert LinkOK(fw0, ln0, path, p, i);
  }

  /** A link that starts after the erased entry shifts down by one position. */
  lemma UnlinkAfter(fw0: seq<seq<int>>, ln0: seq<seq<int>>, fw: seq<seq<int>>, ln: seq<seq<int>>,
                    path: seq<int>, level: int, s: int, i: int, p: int)
    requires EraseSetting(fw0, ln0, fw, ln, path, level, s)
    requires s + 1 < p < |path| && 0 <= i <= Height(fw0, path, p)
    requires fw[path[p]][i] == fw0[path[p]][i] && ln[path[p]][i] == ln0[path[p]][i]
    ensures LinkOK(fw, ln, Removed(path, s + 1), p - 1, i)
  {
    var path2 := Removed(path, s + 1);
    RemovedAt(path, s + 1);
    RemovedHeights(fw0, fw, path, s + 1);
    assert LinkOK(fw0, ln0, path, p, i);
    assert forall r :: p - 1 < r < |path| - 1 ==> Height(fw, path2, r) == Height(fw0, path, r + 1);
  }

  /** The predecessor's link that passed over the erased entry becomes one shorter. */
  lemma UnlinkShorten(fw0: seq<seq<int>>, ln0: seq<seq<int>>, fw: seq<seq<int>>, ln: seq<seq<int>>,
                      path: seq<int>, level: int, s: int, i: int, u: int)
    requires EraseSetting(fw0, ln0, fw, ln, path, level, s)
    requires 0 <= u <= s && 0 <= i <= Top(fw0, path, level, u)
    requires forall r :: u < r <= s ==> Height(fw0, path, r) < i
    requires fw0[path[u]][i] != path[s + 1]
    requires fw[path[u]][i] == fw0[path[u]][i] && ln[path[u]][i] == ln0[path[u]][i] - 1
    ensures LinkOK(fw, ln, Removed(path, s + 1), u, i)
  {
    var path2 := Removed(path, s + 1);
    RemovedAt(path, s + 1);
    RemovedHeights(fw0, fw, path, s + 1);
    PredecessorLink(fw0, ln0, path, level, s, i, u);
    assert LinkOK(fw0, ln0, path, u, i);
    assert forall r :: s + 1 <= r < |path| - 1 ==> Height(fw, path2, r) == Height(fw0, path, r + 1);
  }

  /** The predecessor's link that reached the erased entry takes over the erased entry's link. */
  lemma UnlinkBypass(fw0: seq<seq<int>>, ln0: seq<seq<int>>, fw: seq<seq<int>>, ln: seq<seq<int>>,
                     path: seq<int>, level: int, s: int, i: int, u: int)
    requires EraseSetting(fw0, ln0, fw, ln, path, level, s)
    requires 0 <= u <= s && 0 <= i <= Top(fw0, path, level, u)
    requires forall r :: u < r <= s ==> Height(fw0, path, r) < i
    requires fw0[path[u]][i] == path[s + 1] && i < |fw0[path[s + 1]]|
    requires fw[path[u]][i] == fw0[path[s + 1]][i]
    requires ln[path[u]][i] == ln0[path[u]][i] + ln0[path[s + 1]][i] - 1
    ensures LinkOK(fw, ln, Removed(path, s + 1), u, i)
  {
    var t := s + 1;
    var path2 := Removed(path, t);
    RemovedAt(path, t);
    RemovedHeights(fw0, fw, path, t);
    PredecessorLink(fw0, ln0, path, level, s, i, u);
    assert LinkOK(fw0, ln0, path, t, i);
    assert forall r :: t <= r < |path| - 1 ==> Height(fw, path2, r) == Height(fw0, path, r + 1);
  }

  /** The level-i unlink of the entry at position s + 1, with u the level-i predecessor. */
  lemma UnspliceAt(fw0: seq<seq<int>>, ln0: seq<seq<int>>, fw: seq<seq<int>>, ln: seq<seq<int>>,
                   path: seq<int>, level: int, s: int, i: int, u: int, p2: int)
    requires EraseSetting(fw0, ln0, fw, ln, path, level, s)
    requires 0 <= u <= s && 0 <= i <= Top(fw0, path, level, u)
    requires forall r :: u < r <= s ==> Height(fw0, path, r) < i
    requires forall h :: 0 <= h < |fw0| && h != path[u] && i < |fw0[h]| ==>
               fw[h][i] == fw0[h][i] && ln[h][i] == ln0[h][i]
    requires fw0[path[u]][i] != path[s + 1] ==>
               fw[path[u]][i] == fw0[path[u]][i] && ln[path[u]][i] == ln0[path[u]][i] - 1
    requires fw0[path[u]][i] == path[s + 1] ==>
               i < |fw0[path[s + 1]]| &&
               fw[path[u]][i] == fw0[path[s + 1]][i] && ln[path[u]][i] == ln0[path[u]][i] + ln0[path[s + 1]][i] - 1
    requires 0 <= p2 < |path| - 1 && i <= Top(fw, Removed(path, s + 1), level, p2)
    ensures LinkOK(fw, ln, Removed(path, s + 1), p2, i)
  {
    RemovedAt(path, s + 1);
    RemovedHeights(fw0, fw, path, s + 1);
    if p2 == u {
      if fw0[path[u]][i] == path[s + 1] {
        UnlinkBypass(fw0, ln0, fw, ln, path, level, s, i, u);
      } else {
        UnlinkShorten(fw0, ln0, fw, ln, path, level, s, i, u);
      }
    } else if p2 <= s {
      UnlinkBefore(fw0, ln0, fw, ln, path, level, s, i, u, p2);
    } else {
      UnlinkAfter(fw0, ln0, fw, ln, path, level, s, i, p2 + 1);
    }
  }

  /** One iteration of the erasure's unlink loop at level i. */
  lemma UnspliceStep(fw0: seq<seq<int>>, ln0: seq<seq<int>>, fwA: seq<seq<int>>, lnA: seq<seq<int>>,
                     fw: seq<seq<int>>, ln: seq<seq<int>>, path: seq<int>, level: int, s: int,
                     ups: seq<int>, i: int)
    requires EraseSetting(fw0, ln0, fwA, lnA, path, level, s)
    requires Predecessors(fw0, path, level, ups, s, level)
    requires 0 <= i <= level
    requires SplicedBelow(fwA, lnA, fw0, ln0, Removed(path, s + 1), level, i)
    requires |fw| == |fwA| && |ln| == |lnA|
    requires forall h :: 0 <= h < |fwA| ==> |fw[h]| == |fwA[h]| && |ln[h]| == |lnA[h]|
    requires forall h, j :: 0 <= h < |fwA| && 0 <= j < |fwA[h]| && (j != i || h != path[ups[i]]) ==>
               fw[h][j] == fwA[h][j] && ln[h][j] == lnA[h][j]
    requires fwA[path[ups[i]]][i] != path[s + 1] ==>
               fw[path[ups[i]]][i] == fwA[path[ups[i]]][i] && ln[path[ups[i]]][i] == lnA[path[ups[i]]][i] - 1
    requires fwA[path[ups[i]]][i] == path[s + 1] ==>
               i < |fwA[path[s + 1]]| &&
               fw[path[ups[i]]][i] == fwA[path[s + 1]][i] &&
               ln[path[ups[i]]][i] == lnA[path[ups[i]]][i] + lnA[path[s + 1]][i] - 1
    ensures SplicedBelow(fw, ln, fw0, ln0, Removed(path, s + 1), level, i + 1)
  {
    var path2 := Removed(path, s + 1);
    var u := ups[i];
    RemovedAt(path, s + 1);
    assert EraseSetting(fw0, ln0, fw, ln, path, level, s);
    assert path[u] != path[s + 1];
    forall p2, j | 0 <= p2 < |path2| && 0 <= j < i + 1 && j <= Top(fw, path2, level, p2)
      ensures LinkOK(fw, ln, path2, p2, j)
    {
      assert Top(fw, path2, level, p2) == Top(fwA, path2, level, p2);
      if j < i {
        LinkOKFrame(fwA, lnA, fw, ln, path2, p2, j);
      } else {
        UnspliceAt(fw0, ln0, fw, ln, path, level, s, i, u, p2);
      }
    }
  }

  /** When every level is done, the arena is a well-formed skip list over the shortened order. */
  lemma UnsplicedLinks(fw0: seq<seq<int>>, ln0: seq<seq<int>>, fw: seq<seq<int>>, ln: seq<seq<int>>,
                       path: seq<int>, level: int, s: int)
    requires EraseSetting(fw0, ln0, fw, ln, path, level, s)
    requires SplicedBelow(fw, ln, fw0, ln0, Removed(path, s + 1), level, level + 1)
    ensures Links(fw, ln, Removed(path, s + 1), level)
  {
    RemovedAt(path, s + 1);
    RemovedHeights(fw0, fw, path, s + 1);
    var path2 := Removed(path, s + 1);
    forall r | 0 < r < |path2|
      ensures Height(fw, path2, r) <= level
    {
      if s + 1 <= r {
        assert Height(fw, path2, r) == Height(fw0, path, r + 1);
      }
    }
  }

  /** SpliceStep for the exact assignments insert makes at level i of the new entry's tower. */
  lemma SpliceLevel(fw0: seq<seq<int>>, ln0: seq<seq<int>>, fwA: seq<seq<int>>, lnA: seq<seq<int>>,
                    fw: seq<seq<int>>, ln: seq<seq<int>>, path: seq<int>, level: int, s: int, x: int,
                    ups: seq<int>, i: int)
    requires InsertSetting(fw0, ln0, fwA, lnA, path, level, s, x)
    requires Predecessors(fw0, path, level, ups, s, level)
    requires 0 <= i < |fw0[x]|
    requires SplicedBelow(fwA, lnA, fw0, ln0, Inserted(path, s, x), level, i)
    requires var u := path[ups[i]];
             fw == fwA[x := fwA[x][i := fwA[u][i]]][u := fwA[u][i := x]]
    requires var u := path[ups[i]];
             fwA[u][i] == NIL ==> ln == lnA[x := lnA[x][i := |path| - s]][u := lnA[u][i := s - ups[i] + 1]]
    requires var u := path[ups[i]];
             fwA[u][i] != NIL ==> ln == lnA[x := lnA[x][i := lnA[u][i] - (s - ups[i])]][u := lnA[u][i := s - ups[i] + 1]]
    ensures SplicedBelow(fw, ln, fw0, ln0, Inserted(path, s, x), level, i + 1)
  {
    assert path[ups[i]] != x;
    SpliceStep(fw0, ln0, fwA, lnA, fw, ln, path, level, s, x, ups, i);
  }

  /** WidenStep for the exact assignment insert makes at level i above the new entry's tower. */
  lemma WidenLevel(fw0: seq<seq<int>>, ln0: seq<seq<int>>, fw: seq<seq<int>>, lnA: seq<seq<int>>,
                   ln: seq<seq<int>>, path: seq<int>, level: int, s: int, x: int, ups: seq<int>, i: int)
    requires InsertSetting(fw0, ln0, fw, lnA, path, level, s, x)
    requires Predecessors(fw0, path, level, ups, s, level)
    requires |fw0[x]| <= i <= level
    requires SplicedBelow(fw, lnA, fw0, ln0, Inserted(path, s, x), level, i)
    requires var u := path[ups[i]]; ln == lnA[u := lnA[u][i := lnA[u][i] + 1]]
    ensures SplicedBelow(fw, ln, fw0, ln0, Inserted(path, s, x), level, i + 1)
  {
    WidenStep(fw0, ln0, fw, lnA, fw, ln, path, level, s, x, ups, i);
  }

  /** UnspliceStep for the exact assignments erase makes at level i. */
  lemma UnspliceLevel(fw0: seq<seq<int>>, ln0: seq<seq<int>>, fwA: seq<seq<int>>, lnA: seq<seq<int>>,
                      fw: seq<seq<int>>, ln: seq<seq<int>>, path: seq<int>, level: int, s: int,
                      ups: seq<int>, i: int)
    requires EraseSetting(fw0, ln0, fwA, lnA, path, level, s)
    requires Predecessors(fw0, path, level, ups, s, level)
    requires 0 <= i <= level
    requires SplicedBelow(fwA, lnA, fw0, ln0, Removed(path, s + 1), level, i)
    requires var u, x := path[ups[i]], path[s + 1];
             fwA[u][i] != x ==> fw == fwA && ln == lnA[u := lnA[u][i := lnA[u][i] - 1]]
    requires var u, x := path[ups[i]], path[s + 1];
             fwA[u][i] == x ==>
               && i < |fwA[x]|
               && fw == fwA[u := fwA[u][i := fwA[x][i]]]
               && ln == lnA[u := lnA[u][i := lnA[u][i] + lnA[x][i] - 1]]
    ensures SplicedBelow(fw, ln, fw0, ln0, Removed(path, s + 1), level, i + 1)
  {
    assert path[ups[i]] != path[s + 1];
    UnspliceStep(fw0, ln0, fwA, lnA, fw, ln, path, level, s, ups, i);
  }

  /** Predecessors depend on the towers' heights only. */
  lemma PredecessorsSameHeights(fw: seq<seq<int>>, fw': seq<seq<int>>, path: seq<int>, level: int,
                                ups: seq<int>, s: int, top: int)
    requires Predecessors(fw, path, level, ups, s, top)
    requires forall r :: Height(fw', path, r) == Height(fw, path, r)
    ensures Predecessors(fw', path, level, ups, s, top)
  {
    assert forall p :: Top(fw', path, level, p) == Top(fw, path, level, p);
  }

  /**
   * Raising the current level to lvl: whatever lengths the header's links at the
   * new levels get, those links are NULL and no tower reaches them yet.
   */
  lemma RaiseLinks(fw: seq<seq<int>>, ln: seq<seq<int>>, ln': seq<seq<int>>, path: seq<int>, level: int, lvl: int)
    requires Links(fw, ln, path, level) && level <= lvl <= MAX_LEVEL
    requires |ln'| == |ln| && |ln'[HEADER]| == |ln[HEADER]|
    requires forall h :: 0 <= h < |ln| && h != HEADER ==> ln'[h] == ln[h]
    requires forall j :: 0 <= j <= level ==> ln'[HEADER][j] == ln[HEADER][j]
    requires forall j :: level < j <= lvl ==> ln'[HEADER][j] == |path|
    ensures Links(fw, ln', path, lvl)
  {
    forall p, i | 0 <= p < |path| && 0 <= i <= Top(fw, path, lvl, p)
      ensures LinkOK(fw, ln', path, p, i)
    {
      if p != 0 || i <= level {
        assert LinkOK(fw, ln, path, p, i);
      } else {
        assert fw[HEADER][i] == NIL;
      }
    }
  }
}
