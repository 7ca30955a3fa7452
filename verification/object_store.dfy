/**
 * ObjectStore<T> (multiplenetwork/include/datastructures.h, lines 177-424): a set
 * of objects indexed by their numeric identifier, kept in an order-statistic
 * skip list so that lookup by identifier and by rank both take logarithmic time.
 *
 * Entries live in an arena: entry h has the key value[h], the payload objPtr[h]
 * (None only for the header sentinel), and a tower of forward links forward[h]
 * with their lengths linkLength[h]. The ghost fields give the abstract view:
 * `path` is the chain of handles along level 0, `Keys` the identifiers in
 * increasing order and `Contents` the map from identifier to payload.
 */
module ObjectStores {
  import opened Errors
  import opened SkipLayout

  /** Strictly increasing keys are distinct, so the set of them is as large as the sequence. */
  lemma {:induction false} SortedCard(keys: seq<int>)
    requires StrictlySorted(keys)
    ensures |set k | k in keys| == |keys|
  {
    if keys != [] {
      var init := keys[..|keys| - 1];
      var last := keys[|keys| - 1];
      SortedCard(init);
      assert (set k | k in keys) == (set k | k in init) + {last};
      assert last !in (set k | k in init);
    }
  }

  /** The only place where key v can sit in sorted keys is the first position not below v. */
  lemma SearchPosition(keys: seq<int>, v: int, s: int)
    requires StrictlySorted(keys) && 0 <= s <= |keys|
    requires s == 0 || keys[s - 1] < v
    requires s == |keys| || v <= keys[s]
    ensures v in keys <==> s < |keys| && keys[s] == v
  {
    if v in keys {
      var k :| 0 <= k < |keys| && keys[k] == v;
      assert k == s;
    }
  }

  /**
   * How the arena columns carry the stored objects: the entry at position k + 1
   * along level 0 holds the k-th smallest identifier and its object, and the
   * identifiers so held are exactly those of `contents`.
   */
  ghost predicate Stored<T>(value: seq<int>, objPtr: seq<Option<T>>, path: seq<int>, keys: seq<int>, contents: map<int, T>)
  {
    && |objPtr| == |value| && |path| == |keys| + 1
    && (forall p :: 0 <= p < |path| ==> 0 <= path[p] < |value|)
    && StrictlySorted(keys)
    && (forall k :: 0 <= k < |keys| ==> value[path[k + 1]] == keys[k])
    && (forall k :: 0 <= k < |keys| ==> keys[k] in contents && objPtr[path[k + 1]] == Some(contents[keys[k]]))
    && (forall v :: v in contents ==> v in keys)
  }

  /** A new entry x = |value| for a new identifier v, placed at position s + 1. */
  lemma StoredInsert<T>(value: seq<int>, objPtr: seq<Option<T>>, path: seq<int>, keys: seq<int>, contents: map<int, T>,
                        s: int, x: int, v: int, obj: T)
    requires Stored(value, objPtr, path, keys, contents)
    requires 0 <= s < |path| && x == |value|
    requires s == 0 || keys[s - 1] < v
    requires s == |keys| || v < keys[s]
    ensures Stored(value + [v], objPtr + [Some(obj)], Inserted(path, s, x), keys[..s] + [v] + keys[s..], contents[v := obj])
  {
    var value', objPtr', path', keys' := value + [v], objPtr + [Some(obj)], Inserted(path, s, x), keys[..s] + [v] + keys[s..];
    InsertedAt(path, s, x);
    InsertSorted(keys, s, v);
    forall k | 0 <= k < |keys'|
      ensures value'[path'[k + 1]] == keys'[k]
      ensures keys'[k] in contents[v := obj] && objPtr'[path'[k + 1]] == Some(contents[v := obj][keys'[k]])
    {
      StoredInsertAt(value, objPtr, path, keys, contents, s, x, v, obj, k);
    }
    assert forall w :: w in contents[v := obj] ==> w in keys';
  }

  /** StoredInsert at index k of the new key sequence. */
  lemma StoredInsertAt<T>(value: seq<int>, objPtr: seq<Option<T>>, path: seq<int>, keys: seq<int>, contents: map<int, T>,
                          s: int, x: int, v: int, obj: T, k: int)
    requires Stored(value, objPtr, path, keys, contents)
    requires 0 <= s < |path| && x == |value|
    requires s == 0 || keys[s - 1] < v
    requires s == |keys| || v < keys[s]
    requires 0 <= k <= |keys|
    ensures (value + [v])[Inserted(path, s, x)[k + 1]] == (keys[..s] + [v] + keys[s..])[k]
    ensures var key := (keys[..s] + [v] + keys[s..])[k];
            key in contents[v := obj] && (objPtr + [Some(obj)])[Inserted(path, s, x)[k + 1]] == Some(contents[v := obj][key])
  {
    InsertedAt(path, s, x);
    var keys' := keys[..s] + [v] + keys[s..];
    if k < s {
      assert Inserted(path, s, x)[k + 1] == path[k + 1] && keys'[k] == keys[k];
      assert keys[k] <= keys[s - 1];
    } else if s < k {
      assert Inserted(path, s, x)[k + 1] == path[k] && keys'[k] == keys[k - 1];
      assert keys[s] <= keys[k - 1];
    }
  }

  /** The identifier v at index s gets a new object; the order is unchanged. */
  lemma StoredReplace<T>(value: seq<int>, objPtr: seq<Option<T>>, path: seq<int>, keys: seq<int>, contents: map<int, T>,
                         s: int, v: int, obj: T)
    requires Stored(value, objPtr, path, keys, contents)
    requires 0 <= s < |keys| && keys[s] == v
    ensures Stored(value, objPtr[path[s + 1] := Some(obj)], path, keys, contents[v := obj])
  {
    forall k | 0 <= k < |keys| && k != s
      ensures path[k + 1] != path[s + 1] && keys[k] != v
    {
      assert k < s ==> keys[k] < keys[s];
      assert s < k ==> keys[s] < keys[k];
    }
  }

  /** The entry at position s + 1, holding identifier v = keys[s], leaves the order. */
  lemma StoredRemove<T>(value: seq<int>, objPtr: seq<Option<T>>, path: seq<int>, keys: seq<int>, contents: map<int, T>,
                        s: int, v: int)
    requires Stored(value, objPtr, path, keys, contents)
    requires 0 <= s < |keys| && keys[s] == v
    ensures Stored(value, objPtr, Removed(path, s + 1), keys[..s] + keys[s + 1..], contents - {v})
  {
    var path', keys' := Removed(path, s + 1), keys[..s] + keys[s + 1..];
    RemovedAt(path, s + 1);
    forall k | 0 <= k < |keys'|
      ensures value[path'[k + 1]] == keys'[k]
      ensures keys'[k] in contents - {v} && objPtr[path'[k + 1]] == Some((contents - {v})[keys'[k]])
    {
      StoredRemoveAt(value, objPtr, path, keys, contents, s, v, k);
    }
    RemoveSorted(keys, s);
    forall w | w in contents - {v}
      ensures w in keys'
    {
      var j :| 0 <= j < |keys| && keys[j] == w;
      if j < s {
        assert keys'[j] == w;
      } else {
        assert keys'[j - 1] == w;
      }
    }
  }

  /** StoredRemove at index k of the new key sequence. */
  lemma StoredRemoveAt<T>(value: seq<int>, objPtr: seq<Option<T>>, path: seq<int>, keys: seq<int>, contents: map<int, T>,
                          s: int, v: int, k: int)
    requires Stored(value, objPtr, path, keys, contents)
    requires 0 <= s < |keys| && keys[s] == v && 0 <= k < |keys| - 1
    ensures value[Removed(path, s + 1)[k + 1]] == (keys[..s] + keys[s + 1..])[k]
    ensures var key := (keys[..s] + keys[s + 1..])[k];
            key in contents - {v} && objPtr[Removed(path, s + 1)[k + 1]] == Some((contents - {v})[key])
  {
    RemovedAt(path, s + 1);
    var keys' := keys[..s] + keys[s + 1..];
    if k < s {
      assert Removed(path, s + 1)[k + 1] == path[k + 1] && keys'[k] == keys[k] && keys[k] < v;
    } else {
      assert Removed(path, s + 1)[k + 1] == path[k + 2] && keys'[k] == keys[k + 1] && v < keys[k + 1];
    }
  }

  /** Removing the key at index s keeps the keys strictly increasing. */
  lemma RemoveSorted(keys: seq<int>, s: int)
    requires StrictlySorted(keys) && 0 <= s < |keys|
    ensures StrictlySorted(keys[..s] + keys[s + 1..])
  {
    var keys' := keys[..s] + keys[s + 1..];
    forall a, b | 0 <= a < b < |keys'|
      ensures keys'[a] < keys'[b]
    {
      var a', b' := if a < s then a else a + 1, if b < s then b else b + 1;
      assert keys'[a] == keys[a'] && keys'[b] == keys[b'];
    }
  }

  /** Keys with v placed at index s stay strictly increasing. */
  lemma InsertSorted(keys: seq<int>, s: int, v: int)
    requires StrictlySorted(keys) && 0 <= s <= |keys|
    requires s == 0 || keys[s - 1] < v
    requires s == |keys| || v < keys[s]
    ensures StrictlySorted(keys[..s] + [v] + keys[s..])
  {
    var keys' := keys[..s] + [v] + keys[s..];
    forall a, b | 0 <= a < b < |keys'|
      ensures keys'[a] < keys'[b]
    {
      if a < s && s < b {
        assert keys'[a] <= keys[s - 1];
      }
    }
  }

  /**
   * The store's invariant over its columns: a well-formed skip list over the
   * stored identifiers in order, whose current level is in use, and whose entry
   * count is the number of identifiers.
   */
  ghost predicate Intact<T>(value: seq<int>, objPtr: seq<Option<T>>, fw: seq<seq<int>>, ln: seq<seq<int>>, level: int,
                            n: int, path: seq<int>, keys: seq<int>, contents: map<int, T>)
  {
    && Links(fw, ln, path, level)
    && |value| == |fw|
    && Stored(value, objPtr, path, keys, contents)
    && Tight(fw, level)
    && n == |keys|
  }

  /** The invariant after the tower of a new entry x, holding v and obj, has been linked after position s. */
  lemma InsertedIntact<T>(value0: seq<int>, objPtr0: seq<Option<T>>, fw0: seq<seq<int>>, ln0: seq<seq<int>>,
                          value: seq<int>, objPtr: seq<Option<T>>, fw: seq<seq<int>>, ln: seq<seq<int>>, level: int, n: int,
                          path: seq<int>, keys: seq<int>, contents: map<int, T>, s: int, x: int, v: int, obj: T)
    requires InsertSetting(fw0, ln0, fw, ln, path, level, s, x)
    requires SplicedBelow(fw, ln, fw0, ln0, Inserted(path, s, x), level, level + 1)
    requires |fw0[x]| - 1 == level || Tight(fw0, level)
    requires Stored(value0, objPtr0, path, keys, contents) && x == |value0| && |value| == |fw|
    requires value == value0 + [v] && objPtr == objPtr0 + [Some(obj)]
    requires s == 0 || keys[s - 1] < v
    requires s == |keys| || v < keys[s]
    requires n == |path|
    ensures Intact(value, objPtr, fw, ln, level, n, Inserted(path, s, x), keys[..s] + [v] + keys[s..], contents[v := obj])
  {
    SplicedLinks(fw0, ln0, fw, ln, path, level, s, x);
    StoredInsert(value0, objPtr0, path, keys, contents, s, x, v, obj);
    InsertedTight(fw0, ln0, fw, ln, path, level, s, x);
  }

  /** The store's shape after the entry at position s + 1, holding v, has been unlinked at every level. */
  lemma ErasedOrdered<T>(fw0: seq<seq<int>>, ln0: seq<seq<int>>, value: seq<int>, objPtr: seq<Option<T>>,
                         fw: seq<seq<int>>, ln: seq<seq<int>>, level: int,
                         path: seq<int>, keys: seq<int>, contents: map<int, T>, s: int, v: int)
    requires EraseSetting(fw0, ln0, fw, ln, path, level, s)
    requires SplicedBelow(fw, ln, fw0, ln0, Removed(path, s + 1), level, level + 1)
    requires Stored(value, objPtr, path, keys, contents) && |value| == |fw0|
    requires s < |keys| && keys[s] == v
    ensures Links(fw, ln, Removed(path, s + 1), level) && |value| == |fw|
    ensures Stored(value, objPtr, Removed(path, s + 1), keys[..s] + keys[s + 1..], contents - {v})
  {
    UnsplicedLinks(fw0, ln0, fw, ln, path, level, s);
    StoredRemove(value, objPtr, path, keys, contents, s, v);
  }

  class ObjectStore<T> {
    /** Key (object identifier) of each arena entry. */
    var value: seq<int>
    /** Payload of each arena entry; None for the header. */
    var objPtr: seq<Option<T>>
    /** Forward links of each arena entry, one per level of its tower. */
    var forward: seq<seq<int>>
    /** Link lengths: how many positions each forward link jumps. */
    var linkLength: seq<seq<int>>
    /** Highest level currently in use. */
    var level: int
    /** Number of stored objects. */
    var numEntries: int

    /** Handles along level 0, header first. */
    ghost var path: seq<int>
    /** Stored identifiers in increasing order. */
    ghost var Keys: seq<int>
    /** The stored objects by identifier. */
    ghost var Contents: map<int, T>

    /** The skip-list shape over the stored identifiers, in order. */
    ghost predicate Ordered()
      reads this
    {
      && Links(forward, linkLength, path, level)
      && |value| == |forward|
      && Stored(value, objPtr, path, Keys, Contents)
    }

    ghost predicate Valid()
      reads this
    {
      Intact(value, objPtr, forward, linkLength, level, numEntries, path, Keys, Contents)
    }

    /** The entry at position p along level 0 holds the (p - 1)-th smallest identifier. */
    lemma KeyAt(p: int)
      requires Ordered() && 1 <= p < |path|
      ensures value[path[p]] == Keys[p - 1]
    {
      assert value[path[(p - 1) + 1]] == Keys[p - 1];
    }

    /** The store holds as many objects as it has keys. */
    lemma CountIsSize()
      requires Valid()
      ensures |Contents| == |Keys|
    {
      SortedCard(Keys);
      var inKeys := set k | k in Keys;
      forall k | k in inKeys
        ensures k in Contents
      {
        var j :| 0 <= j < |Keys| && Keys[j] == k;
        assert Keys[j] in Contents;
      }
      forall k | k in Contents
        ensures k in inKeys
      {
        assert k in Keys;
      }
      assert Contents.Keys == inKeys;
    }

    /** The identifier at index pos of Keys has exactly pos smaller stored identifiers. */
    lemma RankOf(pos: int)
      requires Valid() && 0 <= pos < |Keys|
      ensures |set k | k in Contents && k < Keys[pos]| == pos
    {
      SortedCard(Keys[..pos]);
      assert (set k | k in Contents && k < Keys[pos]) == set k | k in Keys[..pos];
    }

    /** An empty store: the header alone, with all its links NULL, at level 0. */
    constructor ()
      ensures Valid()
      ensures Contents == map[] && level == 0
    {
      value := [0];
      objPtr := [None];
      forward := [seq(MAX_LEVEL + 1, _ => NIL)];
      linkLength := [seq(MAX_LEVEL + 1, _ => 0)];
      level := 0;
      numEntries := 0;
      path := [HEADER];
      Keys := [];
      Contents := map[];
    }

    /** The number of stored objects. */
    method Size() returns (r: int)
      requires Valid()
      ensures r == |Contents| && r == |Keys|
    {
      CountIsSize();
      r := numEntries;
    }

    /**
     * What a descent towards key v has found: `skipped` is the position of the
     * last entry with a key below v (so the number of such keys), and for every
     * level j in use, update[j] is the entry at position spl[j], the last one
     * before or at `skipped` whose tower reaches level j.
     */
    ghost predicate Descent(v: int, update: seq<int>, spl: seq<int>, skipped: int)
      reads this
      requires Valid()
    {
      && |update| == MAX_LEVEL + 1 && |spl| == MAX_LEVEL + 1
      && 0 <= skipped < |path|
      && (skipped == 0 || Keys[skipped - 1] < v)
      && (skipped == |Keys| || v <= Keys[skipped])
      && Predecessors(forward, path, level, spl, skipped, level)
      && (forall j :: 0 <= j <= level ==> update[j] == path[spl[j]])
      && (forall j :: level < j <= MAX_LEVEL ==> spl[j] == 0)
    }

    /**
     * Levels above i have been left at update[j], position spl[j] <= skipped,
     * with no tower between spl[j] and skipped reaching level j.
     */
    ghost predicate LeftBehind(update: seq<int>, spl: seq<int>, skipped: int, i: int)
      reads this
    {
      && |update| == MAX_LEVEL + 1 && |spl| == MAX_LEVEL + 1
      && (forall j :: 0 <= j && i < j <= level && j <= MAX_LEVEL ==>
            && 0 <= spl[j] <= skipped < |path| && j <= Top(forward, path, level, spl[j])
            && update[j] == path[spl[j]]
            && (forall r :: spl[j] < r <= skipped ==> Height(forward, path, r) < j))
      && (forall j :: 0 <= j && level < j <= MAX_LEVEL ==> spl[j] == 0)
    }

    /**
     * The descent shared by contains, get, insert and erase: from the header at
     * the current level, move right while the next key is below v, then drop a
     * level. update[i] records where level i was left and spl[i] its position.
     */
    method Descend(v: int) returns (update: seq<int>, spl: seq<int>, skipped: int)
      requires Valid()
      ensures Descent(v, update, spl, skipped)
      ensures update[0] == path[skipped]
    {
      var x := HEADER;
      update := seq(MAX_LEVEL + 1, _ => NIL);
      spl := seq(MAX_LEVEL + 1, _ => 0);
      skipped := 0;
      var i := level;
      while i >= 0
        invariant -1 <= i <= level
        invariant 0 <= skipped < |path| && x == path[skipped]
        invariant skipped == 0 || Keys[skipped - 1] < v
        invariant i <= Top(forward, path, level, skipped)
        invariant forall r :: skipped < r < |path| && Keys[r - 1] < v ==> Height(forward, path, r) <= i
        invariant LeftBehind(update, spl, skipped, i)
      {
        var s0 := skipped;
        x, skipped := MoveRight(v, i, x, skipped);
        LeaveLevel(update, spl, s0, skipped, i, x);
        spl := spl[i := skipped];
        update := update[i := x];
        i := i - 1;
      }
      if skipped + 1 < |path| {
        assert 0 <= Height(forward, path, skipped + 1);
      }
    }

    /** Leaving level i at position s (entry x) extends what has been left behind down to level i. */
    lemma LeaveLevel(update: seq<int>, spl: seq<int>, s0: int, s: int, i: int, x: int)
      requires Valid() && 0 <= i <= level
      requires LeftBehind(update, spl, s0, i)
      requires 0 <= s0 <= s < |path| && x == path[s] && i <= Top(forward, path, level, s)
      requires forall r :: s0 < r <= s ==> Height(forward, path, r) <= i
      ensures LeftBehind(update[i := x], spl[i := s], s, i - 1)
    {
    }

    /**
     * The inner loop of a descent at level i: follow level-i links while they
     * lead to a key below v. No tower passed on the way, nor any later entry
     * with a key below v, rises above level i.
     */
    method MoveRight(v: int, i: int, x0: int, s0: int) returns (x: int, skipped: int)
      requires Ordered() && 0 <= i <= level
      requires 0 <= s0 < |path| && x0 == path[s0] && (s0 == 0 || Keys[s0 - 1] < v)
      requires i <= Top(forward, path, level, s0)
      requires forall r :: s0 < r < |path| && Keys[r - 1] < v ==> Height(forward, path, r) <= i
      ensures s0 <= skipped < |path| && x == path[skipped] && (skipped == 0 || Keys[skipped - 1] < v)
      ensures i <= Top(forward, path, level, skipped)
      ensures forall r :: s0 < r <= skipped ==> Height(forward, path, r) <= i
      ensures forall r :: skipped < r < |path| && Keys[r - 1] < v ==> Height(forward, path, r) < i
    {
      x, skipped := x0, s0;
      NextEntry(i, skipped);
      while forward[x][i] != NIL && value[forward[x][i]] < v
        invariant s0 <= skipped < |path| && x == path[skipped]
        invariant skipped == 0 || Keys[skipped - 1] < v
        invariant i <= Top(forward, path, level, skipped)
        invariant forward[x][i] == NIL || 0 <= forward[x][i] < |value|
        invariant forall r :: s0 < r <= skipped ==> Height(forward, path, r) <= i
        decreases |path| - skipped
      {
        StepRight(v, i, s0, skipped);
        skipped := skipped + linkLength[x][i];
        x := forward[x][i];
        NextEntry(i, skipped);
      }
      Settle(v, i, skipped);
    }

    /** The level-i link at position s is NULL or leads to an entry of the arena. */
    lemma NextEntry(i: int, s: int)
      requires Ordered() && 0 <= i && 0 <= s < |path| && i <= Top(forward, path, level, s)
      ensures forward[path[s]][i] == NIL || 0 <= forward[path[s]][i] < |value|
    {
      assert LinkOK(forward, linkLength, path, s, i);
    }

    /** One move of MoveRight: the link leads to a key below v, at a tower of level i or more. */
    lemma StepRight(v: int, i: int, s0: int, s: int)
      requires Ordered() && 0 <= i && 0 <= s0 <= s < |path|
      requires i <= Top(forward, path, level, s)
      requires forward[path[s]][i] != NIL && 0 <= forward[path[s]][i] < |value| && value[forward[path[s]][i]] < v
      requires forall r :: s0 < r < |path| && Keys[r - 1] < v ==> Height(forward, path, r) <= i
      requires forall r :: s0 < r <= s ==> Height(forward, path, r) <= i
      ensures s < s + linkLength[path[s]][i] < |path|
      ensures forward[path[s]][i] == path[s + linkLength[path[s]][i]]
      ensures Keys[s + linkLength[path[s]][i] - 1] < v
      ensures i <= Top(forward, path, level, s + linkLength[path[s]][i])
      ensures forall r :: s0 < r <= s + linkLength[path[s]][i] ==> Height(forward, path, r) <= i
    {
      assert LinkOK(forward, linkLength, path, s, i);
      var q := s + linkLength[path[s]][i];
      KeyAt(q);
      forall r | s < r <= q
        ensures Height(forward, path, r) <= i
      {
        assert Keys[r - 1] <= Keys[q - 1];
      }
    }

    /** Where MoveRight stops, no later entry with a key below v reaches level i. */
    lemma Settle(v: int, i: int, s: int)
      requires Ordered() && 0 <= i && 0 <= s < |path|
      requires i <= Top(forward, path, level, s)
      requires forward[path[s]][i] == NIL || (0 <= forward[path[s]][i] < |value| && v <= value[forward[path[s]][i]])
      ensures forall r :: s < r < |path| && Keys[r - 1] < v ==> Height(forward, path, r) < i
    {
      assert LinkOK(forward, linkLength, path, s, i);
      if forward[path[s]][i] != NIL {
        KeyAt(s + linkLength[path[s]][i]);
      }
      StepDown(forward, linkLength, path, level, Keys, v, s, i);
    }

    /** Whether an object with identifier v is stored. */
    method Contains(v: int) returns (b: bool)
      requires Valid()
      ensures b <==> v in Contents
    {
      var update, _, skipped := Descend(v);
      BaseLink(forward, linkLength, path, level, skipped);
      var x := forward[update[0]][0];
      b := x != NIL && value[x] == v;
      SearchPosition(Keys, v, skipped);
    }

    /** The object stored under identifier v, or None (the NULL pointer) when there is none. */
    method Get(v: int) returns (r: Option<T>)
      requires Valid()
      ensures v in Contents ==> r == Some(Contents[v])
      ensures v !in Contents ==> r == None
    {
      var update, _, skipped := Descend(v);
      BaseLink(forward, linkLength, path, level, skipped);
      var x := forward[update[0]][0];
      SearchPosition(Keys, v, skipped);
      if x != NIL && value[x] == v {
        r := objPtr[x];
      } else {
        r := None;
      }
    }

    /**
     * The object whose identifier has rank pos (0-based) among the stored ones:
     * descend while the accumulated link lengths stay within pos + 1.
     */
    method GetAtIndex(pos: int) returns (r: Result<T>)
      requires Valid()
      ensures pos < 0 || |Keys| <= pos ==> r == Failure(ElementNotFound)
      ensures 0 <= pos < |Keys| ==> r == Success(Contents[Keys[pos]])
    {
      if pos < 0 || pos >= numEntries {
        return Failure(ElementNotFound);
      }
      var x := HEADER;
      var soFar := 0;
      var i := level;
      while i >= 0
        invariant -1 <= i <= level
        invariant 0 <= soFar <= pos + 1 && x == path[soFar]
        invariant i <= Top(forward, path, level, soFar)
        invariant forall r :: soFar < r <= pos + 1 ==> Height(forward, path, r) <= i
      {
        while forward[x][i] != NIL && linkLength[x][i] + soFar <= pos + 1
          invariant 0 <= soFar <= pos + 1 && x == path[soFar]
          invariant i <= Top(forward, path, level, soFar)
          invariant forall r :: soFar < r <= pos + 1 ==> Height(forward, path, r) <= i
          decreases pos + 1 - soFar
        {
          assert LinkOK(forward, linkLength, path, soFar, i);
          soFar := soFar + linkLength[x][i];
          x := forward[x][i];
        }
        assert LinkOK(forward, linkLength, path, soFar, i);
        i := i - 1;
      }
      assert 0 <= Height(forward, path, pos + 1);
      assert x == path[pos + 1] && objPtr[path[pos + 1]] == Some(Contents[Keys[pos]]);
      r := Success(objPtr[x].value);
    }
  
    /**
     * Stores obj under identifier v. A new identifier gets an entry whose tower
     * has lvl + 1 levels (lvl is the random level the library draws with
     * probability P per extra level), raising the list's level to lvl if needed;
     * an identifier already present has its object replaced in place.
     */
    method Insert(v: int, obj: T, lvl: int)
      requires Valid() && 0 <= lvl <= MAX_LEVEL
      modifies this
      ensures Valid()
      ensures Contents == old(Contents)[v := obj]
      ensures v in old(Contents) ==> level == old(level) && Keys == old(Keys)
      ensures v in old(Contents) ==> path == old(path) && value == old(value) && numEntries == old(numEntries)
      ensures v in old(Contents) ==> forward == old(forward) && linkLength == old(linkLength)
      ensures v !in old(Contents) ==> level == if lvl > old(level) then lvl else old(level)
    {
      var update, spl, skipped := Descend(v);
      BaseLink(forward, linkLength, path, level, skipped);
      SearchPosition(Keys, v, skipped);
      var x := forward[update[0]][0];
      if x == NIL || value[x] != v {
        LinkNew(v, obj, lvl, update, spl, skipped);
      } else {
        StoredReplace(value, objPtr, path, Keys, Contents, skipped, v, obj);
        objPtr := objPtr[x := Some(obj)];
        Contents := Contents[v := obj];
      }
    }

    /** The branch of insert for an identifier not yet present. */
    method LinkNew(v: int, obj: T, lvl: int, update0: seq<int>, spl: seq<int>, skipped: int)
      requires Valid() && 0 <= lvl <= MAX_LEVEL
      requires Descent(v, update0, spl, skipped) && v !in Contents
      modifies this
      ensures Valid()
      ensures Contents == old(Contents)[v := obj]
      ensures level == if lvl > old(level) then lvl else old(level)
    {
      SearchPosition(Keys, v, skipped);
      numEntries := numEntries + 1;
      var update := update0;
      if lvl > level {
        update := RaiseLevel(lvl, update, spl, skipped);
      }
      var x := AppendEntry(v, obj, lvl);
      PredecessorsSameHeights(old(forward), forward, path, level, spl, skipped, level);
      LinkTower(v, obj, x, lvl, update, spl, skipped, old(value), old(objPtr));
    }

    /**
     * Links the freshly appended entry x, holding v and obj, into the list
     * after position `skipped`, at every level of its tower and above.
     */
    method LinkTower(v: int, obj: T, x: int, lvl: int, update: seq<int>, spl: seq<int>, skipped: int,
                     ghost value0: seq<int>, ghost objPtr0: seq<Option<T>>)
      requires InsertSetting(forward, linkLength, forward, linkLength, path, level, skipped, x)
      requires Predecessors(forward, path, level, spl, skipped, level)
      requires 0 <= lvl <= level && |forward[x]| == lvl + 1 && |update| == MAX_LEVEL + 1
      requires forall j :: 0 <= j <= level ==> update[j] == path[spl[j]]
      requires numEntries == |path| && (lvl == level || Tight(forward, level))
      requires Stored(value0, objPtr0, path, Keys, Contents) && x == |value0| && |value| == |forward|
      requires value == value0 + [v] && objPtr == objPtr0 + [Some(obj)]
      requires skipped == 0 || Keys[skipped - 1] < v
      requires skipped == |Keys| || v < Keys[skipped]
      modifies this
      ensures Valid()
      ensures Contents == old(Contents)[v := obj] && level == old(level)
    {
      ghost var fw0, ln0 := forward, linkLength;
      SpliceTower(x, lvl, update, spl, skipped);
      WidenAbove(x, lvl, update, spl, skipped, fw0, ln0);
      InsertedIntact(value0, objPtr0, fw0, ln0, value, objPtr, forward, linkLength, level, numEntries,
                     path, Keys, Contents, skipped, x, v, obj);
      path := Inserted(path, skipped, x);
      Keys := Keys[..skipped] + [v] + Keys[skipped..];
      Contents := Contents[v := obj];
    }

    /**
     * The part of insert that raises the list's level to lvl: the header becomes
     * the predecessor at every new level, its link there NULL with length
     * numEntries.
     */
    method RaiseLevel(lvl: int, update0: seq<int>, spl: seq<int>, skipped: int) returns (update: seq<int>)
      requires Links(forward, linkLength, path, level) && level < lvl <= MAX_LEVEL
      requires Predecessors(forward, path, level, spl, skipped, level) && |update0| == MAX_LEVEL + 1
      requires forall j :: 0 <= j <= level ==> update0[j] == path[spl[j]]
      requires forall j :: level < j <= MAX_LEVEL ==> spl[j] == 0
      requires numEntries == |path|
      modifies this
      ensures value == old(value) && objPtr == old(objPtr) && forward == old(forward) && numEntries == old(numEntries)
      ensures path == old(path) && Keys == old(Keys) && Contents == old(Contents)
      ensures level == lvl && Links(forward, linkLength, path, level)
      ensures Predecessors(forward, path, level, spl, skipped, level)
      ensures |update| == MAX_LEVEL + 1 && forall j :: 0 <= j <= level ==> update[j] == path[spl[j]]
    {
      update := update0;
      var i := level + 1;
      while i <= lvl
        invariant level == old(level) && value == old(value) && objPtr == old(objPtr) && forward == old(forward)
        invariant numEntries == old(numEntries) && path == old(path) && Keys == old(Keys) && Contents == old(Contents)
        invariant level + 1 <= i <= lvl + 1
        invariant |linkLength| == |old(linkLength)| && |linkLength[HEADER]| == MAX_LEVEL + 1
        invariant forall h :: 0 <= h < |linkLength| && h != HEADER ==> linkLength[h] == old(linkLength)[h]
        invariant forall j :: 0 <= j < MAX_LEVEL + 1 && (j <= level || i <= j) ==>
                    linkLength[HEADER][j] == old(linkLength)[HEADER][j]
        invariant |update| == MAX_LEVEL + 1
        invariant forall j :: 0 <= j <= level ==> update[j] == path[spl[j]]
        invariant forall j :: level < j < i ==> update[j] == HEADER && linkLength[HEADER][j] == numEntries
      {
        update := update[i := HEADER];
        linkLength := linkLength[HEADER := linkLength[HEADER][i := numEntries]];
        i := i + 1;
      }
      RaiseLinks(forward, old(linkLength), linkLength, path, level, lvl);
      RaisePredecessors(forward, path, level, lvl, spl, skipped);
      level := lvl;
    }

    /** The allocation of the new entry: a tower of lvl + 1 NULL links of length 0. */
    method AppendEntry(v: int, obj: T, lvl: int) returns (x: int)
      requires Links(forward, linkLength, path, level) && 0 <= lvl <= level
      requires |value| == |forward| && |objPtr| == |forward|
      modifies this
      ensures forward == old(forward) + [seq(lvl + 1, _ => NIL)]
      ensures x == old(|forward|) && |forward[x]| == lvl + 1
      ensures value == old(value) + [v] && objPtr == old(objPtr) + [Some(obj)]
      ensures level == old(level) && numEntries == old(numEntries)
      ensures path == old(path) && Keys == old(Keys) && Contents == old(Contents)
      ensures Links(forward, linkLength, path, level)
      ensures forall r :: Height(forward, path, r) == Height(old(forward), path, r)
      ensures forall p :: 0 <= p < |path| ==> path[p] != x
    {
      AppendSlot(forward, linkLength, path, level, seq(lvl + 1, _ => NIL), seq(lvl + 1, _ => 0));
      x := |forward|;
      value := value + [v];
      objPtr := objPtr + [Some(obj)];
      forward := forward + [seq(lvl + 1, _ => NIL)];
      linkLength := linkLength + [seq(lvl + 1, _ => 0)];
    }

    /** Raising the level makes the header the predecessor at every new level. */
    static lemma RaisePredecessors(fw: seq<seq<int>>, path: seq<int>, level: int, lvl: int, spl: seq<int>, s: int)
      requires Predecessors(fw, path, level, spl, s, level) && 0 <= level < lvl <= MAX_LEVEL
      requires forall j :: level < j <= MAX_LEVEL ==> spl[j] == 0
      requires forall r :: 0 < r < |path| ==> Height(fw, path, r) <= level
      ensures Predecessors(fw, path, lvl, spl, s, lvl)
    {
    }

    /**
     * The first loop of insert's linking: at each level of x's tower, x takes
     * over its predecessor's link and the predecessor now points at x, one
     * position ahead.
     */
    method SpliceTower(x: int, lvl: int, update: seq<int>, spl: seq<int>, skipped: int)
      requires InsertSetting(forward, linkLength, forward, linkLength, path, level, skipped, x)
      requires Predecessors(forward, path, level, spl, skipped, level)
      requires 0 <= lvl <= level && |forward[x]| == lvl + 1 && |update| == MAX_LEVEL + 1
      requires forall j :: 0 <= j <= level ==> update[j] == path[spl[j]]
      requires numEntries == |path|
      modifies this
      ensures value == old(value) && objPtr == old(objPtr) && level == old(level) && numEntries == old(numEntries)
      ensures path == old(path) && Keys == old(Keys) && Contents == old(Contents)
      ensures SplicedBelow(forward, linkLength, old(forward), old(linkLength), Inserted(path, skipped, x), level, lvl + 1)
    {
      ghost var fw0, ln0 := forward, linkLength;
      ghost var path2 := Inserted(path, skipped, x);
      var i := 0;
      while i <= lvl
        invariant value == old(value) && objPtr == old(objPtr) && level == old(level) && numEntries == old(numEntries)
        invariant path == old(path) && Keys == old(Keys) && Contents == old(Contents)
        invariant 0 <= i <= lvl + 1
        invariant SplicedBelow(forward, linkLength, fw0, ln0, path2, level, i)
      {
        var offset := skipped - spl[i];
        var u := update[i];
        ghost var fwA, lnA := forward, linkLength;
        forward := forward[x := forward[x][i := forward[u][i]]];
        if forward[u][i] == NIL {
          linkLength := linkLength[x := linkLength[x][i := numEntries - skipped]];
        } else {
          linkLength := linkLength[x := linkLength[x][i := linkLength[u][i] - offset]];
        }
        forward := forward[u := forward[u][i := x]];
        linkLength := linkLength[u := linkLength[u][i := offset + 1]];
        SpliceLevel(fw0, ln0, fwA, lnA, forward, linkLength, path, level, skipped, x, spl, i);
        i := i + 1;
      }
    }

    /**
     * The second loop of insert's linking: above x's tower, up to the current
     * level, the predecessor's link now passes over x and grows by one.
     */
    method WidenAbove(x: int, lvl: int, update: seq<int>, spl: seq<int>, skipped: int,
                      ghost fw0: seq<seq<int>>, ghost ln0: seq<seq<int>>)
      requires InsertSetting(fw0, ln0, forward, linkLength, path, level, skipped, x)
      requires Predecessors(fw0, path, level, spl, skipped, level)
      requires 0 <= lvl <= level && |fw0[x]| == lvl + 1 && |update| == MAX_LEVEL + 1
      requires forall j :: 0 <= j <= level ==> update[j] == path[spl[j]]
      requires SplicedBelow(forward, linkLength, fw0, ln0, Inserted(path, skipped, x), level, lvl + 1)
      modifies this
      ensures value == old(value) && objPtr == old(objPtr) && level == old(level) && numEntries == old(numEntries)
      ensures path == old(path) && Keys == old(Keys) && Contents == old(Contents) && forward == old(forward)
      ensures SplicedBelow(forward, linkLength, fw0, ln0, Inserted(path, skipped, x), level, level + 1)
    {
      ghost var path2 := Inserted(path, skipped, x);
      var i := lvl + 1;
      while i <= level
        invariant value == old(value) && objPtr == old(objPtr) && level == old(level) && numEntries == old(numEntries)
        invariant path == old(path) && Keys == old(Keys) && Contents == old(Contents) && forward == old(forward)
        invariant lvl + 1 <= i <= level + 1
        invariant SplicedBelow(forward, linkLength, fw0, ln0, path2, level, i)
      {
        var u := update[i];
        ghost var lnA := linkLength;
        linkLength := linkLength[u := linkLength[u][i := linkLength[u][i] + 1]];
        WidenLevel(fw0, ln0, forward, lnA, linkLength, path, level, skipped, x, spl, i);
        i := i + 1;
      }
    }
    /** Level 0 leads from position p to the next position, or to NULL from the last one. */
    lemma Step(p: int)
      requires Valid() && 0 <= p < |path|
      ensures forward[path[p]][0] == if p + 1 < |path| then path[p + 1] else NIL
    {
      BaseLink(forward, linkLength, path, level, p);
    }

    /** Distinct positions (the end included) hold distinct pointers. */
    lemma SamePlace(p: int, q: int)
      requires Valid() && 1 <= p <= |path| && 1 <= q <= |path|
      ensures (if p < |path| then path[p] else NIL) == (if q < |path| then path[q] else NIL) <==> p == q
    {
    }

    /** An iterator at the first entry along level 0 (the end when the store is empty). */
    method Begin() returns (it: Iterator<T>)
      requires Valid()
      ensures fresh(it) && it.store == this && it.Valid() && it.pos == 1
    {
      BaseLink(forward, linkLength, path, level, 0);
      it := new Iterator(this, forward[HEADER][0], 1);
    }

    /** The iterator past the last entry: its pointer is NULL. */
    method End() returns (it: Iterator<T>)
      requires Valid()
      ensures fresh(it) && it.store == this && it.Valid() && it.pos == |path|
    {
      it := new Iterator(this, NIL, |path|);
    }

    /**
     * A traversal from begin() to end(): it yields the stored objects once
     * each, by increasing identifier, in size() steps.
     */
    method Elements() returns (objs: seq<T>, steps: int)
      requires Valid()
      ensures steps == |Contents| && |objs| == |Keys| && StrictlySorted(Keys)
      ensures forall k :: 0 <= k < |objs| ==> Keys[k] in Contents && objs[k] == Contents[Keys[k]]
      ensures forall v :: v in Contents ==> v in Keys
    {
      CountIsSize();
      var it := Begin();
      var stop := End();
      objs, steps := [], 0;
      var done := it.Equals(stop);
      while !done
        invariant it.Valid() && it.store == this && fresh(it)
        invariant stop.Valid() && stop.store == this && stop.pos == |path| && stop != it
        invariant steps == it.pos - 1 && |objs| == steps
        invariant done <==> it.pos == |path|
        invariant forall k :: 0 <= k < |objs| ==> objs[k] == Contents[Keys[k]]
        decreases |path| - it.pos
      {
        var obj := it.Deref();
        objs := objs + [obj];
        steps := steps + 1;
        var _ := it.Next();
        done := it.Equals(stop);
      }
    }

    /**
     * Removes the object stored under identifier v, if any: its entry is
     * unlinked at every level, the links passing over it shrink by one, and
     * levels left empty at the top are dropped.
     */
    method Erase(v: int)
      requires Valid()
      modifies this
      ensures Valid()
      ensures Contents == old(Contents) - {v}
      ensures v in old(Contents) ==> level <= old(level)
      ensures v !in old(Contents) ==> unchanged(this)
    {
      var update, spl, skipped := Descend(v);
      BaseLink(forward, linkLength, path, level, skipped);
      SearchPosition(Keys, v, skipped);
      var x := forward[update[0]][0];
      if x == NIL {
        return;
      }
      if value[x] == v {
        KeyAt(skipped + 1);
        Unlink(x, update, spl, skipped);
        numEntries := numEntries - 1;
        ErasedOrdered(old(forward), old(linkLength), value, objPtr, forward, linkLength, level,
                      path, Keys, Contents, skipped, v);
        path := Removed(path, skipped + 1);
        Keys := Keys[..skipped] + Keys[skipped + 1..];
        Contents := Contents - {v};
        Shrink();
      }
    }

    /**
     * The unlinking loop of erase: at each level, a predecessor pointing at x
     * takes over x's link and its length, and any other predecessor's link,
     * which passes over x, becomes one shorter.
     */
    method Unlink(x: int, update: seq<int>, spl: seq<int>, skipped: int)
      requires Links(forward, linkLength, path, level) && 0 <= skipped && skipped + 1 < |path| && x == path[skipped + 1]
      requires Predecessors(forward, path, level, spl, skipped, level)
      requires |update| == MAX_LEVEL + 1 && forall j :: 0 <= j <= level ==> update[j] == path[spl[j]]
      modifies this
      ensures value == old(value) && objPtr == old(objPtr) && level == old(level) && numEntries == old(numEntries)
      ensures path == old(path) && Keys == old(Keys) && Contents == old(Contents)
      ensures EraseSetting(old(forward), old(linkLength), forward, linkLength, path, level, skipped)
      ensures SplicedBelow(forward, linkLength, old(forward), old(linkLength), Removed(path, skipped + 1), level, level + 1)
    {
      ghost var fw0, ln0 := forward, linkLength;
      var i := 0;
      while i <= level
        invariant value == old(value) && objPtr == old(objPtr) && level == old(level) && numEntries == old(numEntries)
        invariant path == old(path) && Keys == old(Keys) && Contents == old(Contents)
        invariant 0 <= i <= level + 1
        invariant SplicedBelow(forward, linkLength, fw0, ln0, Removed(path, skipped + 1), level, i)
      {
        var u := update[i];
        ghost var fwA, lnA := forward, linkLength;
        PredecessorLink(fw0, ln0, path, level, skipped, i, spl[i]);
        if forward[u][i] != x {
          linkLength := linkLength[u := linkLength[u][i := linkLength[u][i] - 1]];
        } else {
          forward := forward[u := forward[u][i := forward[x][i]]];
          linkLength := linkLength[u := linkLength[u][i := linkLength[u][i] + linkLength[x][i] - 1]];
        }
        UnspliceLevel(fw0, ln0, fwA, lnA, forward, linkLength, path, level, skipped, spl, i);
        i := i + 1;
      }
    }

    /** The last loop of erase: drop the top level while the header's link there is NULL. */
    method Shrink()
      requires Ordered() && numEntries == |Keys|
      modifies this
      ensures Valid() && level <= old(level)
      ensures value == old(value) && objPtr == old(objPtr) && forward == old(forward) && linkLength == old(linkLength)
      ensures numEntries == old(numEntries) && path == old(path) && Keys == old(Keys) && Contents == old(Contents)
    {
      while level > 0 && forward[HEADER][level] == NIL
        invariant Ordered() && level <= old(level)
        invariant value == old(value) && objPtr == old(objPtr) && forward == old(forward) && linkLength == old(linkLength)
        invariant numEntries == old(numEntries) && path == old(path) && Keys == old(Keys) && Contents == old(Contents)
        decreases level
      {
        DropLevel(forward, linkLength, path, level);
        level := level - 1;
      }
    }
  }

  /**
   * ObjectStore<T>::iterator: a forward iterator along level 0. `pos` is the
   * position of `current` along the store's path; the end iterator holds NULL
   * and stands just past the last position.
   */
  class Iterator<T> {
    const store: ObjectStore<T>
    var current: int
    ghost var pos: int

    ghost predicate Valid()
      reads this, store
    {
      && store.Valid()
      && 1 <= pos <= |store.path|
      && current == if pos < |store.path| then store.path[pos] else NIL
    }

    constructor (store: ObjectStore<T>, current: int, ghost pos: int)
      requires store.Valid() && 1 <= pos <= |store.path|
      requires current == if pos < |store.path| then store.path[pos] else NIL
      ensures this.store == store && this.current == current && this.pos == pos && Valid()
    {
      this.store := store;
      this.current := current;
      this.pos := pos;
    }

    /** The object at the iterator: the one with the (pos - 1)-th smallest identifier. */
    method Deref() returns (obj: T)
      requires Valid() && pos < |store.path|
      ensures obj == store.Contents[store.Keys[pos - 1]]
    {
      store.KeyAt(pos);
      obj := store.objPtr[current].value;
    }

    /** Prefix ++: move to the next position along level 0; the copy returned is at the new position. */
    method Next() returns (r: Iterator<T>)
      requires Valid() && pos < |store.path|
      modifies this
      ensures Valid() && pos == old(pos) + 1
      ensures fresh(r) && r.store == store && r.current == current && r.pos == pos
    {
      store.Step(pos);
      current := store.forward[current][0];
      pos := pos + 1;
      r := new Iterator(store, current, pos);
    }

    /** Postfix ++: move to the next position; the copy returned is at the old position. */
    method PostNext() returns (r: Iterator<T>)
      requires Valid() && pos < |store.path|
      modifies this
      ensures Valid() && pos == old(pos) + 1
      ensures fresh(r) && r.store == store && r.current == old(current) && r.pos == old(pos)
    {
      r := new Iterator(store, current, pos);
      store.Step(pos);
      current := store.forward[current][0];
      pos := pos + 1;
    }

    /** Iterators compare by pointer; over the same store that is comparing positions. */
    method Equals(rhs: Iterator<T>) returns (b: bool)
      ensures b <==> current == rhs.current
      ensures Valid() && rhs.Valid() && store == rhs.store ==> (b <==> pos == rhs.pos)
    {
      b := current == rhs.current;
      if Valid() && rhs.Valid() && store == rhs.store {
        store.SamePlace(pos, rhs.pos);
      }
    }
  }
}
