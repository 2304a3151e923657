/** The open-addressing hash table: linear probing over a power-of-two array, at most half full,
    with backward-shift deletion. The hash is an arbitrary function of the key. */
module HashMap {
  import opened Common
  import opened Words

  const CAPACITY_MIN := 8

  /** A table element; Empty is the sentinel that the set and equal callbacks write and test. */
  datatype Slot<K, V> = Empty | Full(key: K, value: V)

  /** p lies in the cyclic interval [from, to). */
  predicate Between(from: nat, p: nat, to: nat) {
    if from <= to then from <= p < to else from <= p || p < to
  }

  function Next(i: nat, n: nat): nat {
    if i + 1 == n then 0 else i + 1
  }

  /** Steps from i forward to j on a ring of n. */
  function Distance(i: nat, j: nat, n: nat): int {
    if i <= j then j - i else j - i + n
  }

  function Home<K>(hash: K -> nat, key: K, n: nat): (h: nat)
    requires n > 0
    ensures h < n
  {
    hash(key) % n
  }

  /** place tells, for every stored key, the one slot that holds it. */
  ghost predicate Indexed<K, V>(s: seq<Slot<K, V>>, place: map<K, nat>) {
    && (forall k :: k in place ==> place[k] < |s| && s[place[k]].Full? && s[place[k]].key == k)
    && (forall i :: 0 <= i < |s| && s[i].Full? ==> s[i].key in place && place[s[i].key] == i)
  }

  /** No empty slot lies between an element's home slot and its position. */
  ghost predicate Unbroken<K, V>(s: seq<Slot<K, V>>, hash: K -> nat) {
    forall q, p :: 0 <= q < |s| && 0 <= p < |s| && s[q].Full? && Between(Home(hash, s[q].key, |s|), p, q) ==> s[p].Full?
  }

  /** The same, except for elements whose way leads over the hole and that lie outside the scanned
      part (hole, last]. */
  ghost predicate UnbrokenBut<K, V>(s: seq<Slot<K, V>>, hash: K -> nat, hole: nat, last: nat) {
    forall q, p :: 0 <= q < |s| && 0 <= p < |s| && s[q].Full? && Between(Home(hash, s[q].key, |s|), p, q) ==>
      s[p].Full? || (p == hole && !Between(Next(hole, |s|), q, Next(last, |s|)))
  }

  ghost function ContentsOf<K, V>(s: seq<Slot<K, V>>, place: map<K, nat>): map<K, V>
    requires Indexed(s, place)
  {
    map k | k in place :: s[place[k]].value
  }

  /** The live elements in slot order. */
  function Entries<K, V>(s: seq<Slot<K, V>>): seq<(K, V)> {
    if s == [] then []
    else Entries(s[..|s| - 1]) + match s[|s| - 1] case Empty => [] case Full(k, v) => [(k, v)]
  }

  class Map<K(==), V> {
    const hash: K -> nat
    var elements: array<Slot<K, V>>
    var count: nat
    ghost var place: map<K, nat>

    ghost predicate Valid()
      reads this, elements
    {
      && IsPow2(elements.Length)
      && CAPACITY_MIN <= elements.Length
      && |place| == count
      && 2 * count <= elements.Length
      && Indexed(elements[..], place)
      && Unbroken(elements[..], hash)
    }

    ghost function Contents(): map<K, V>
      reads this, elements
      requires Valid()
    {
      ContentsOf(elements[..], place)
    }

    constructor (hash: K -> nat)
      ensures Valid() && fresh(elements)
      ensures this.hash == hash && Contents() == map[] && elements.Length == CAPACITY_MIN
    {
      this.hash := hash;
      elements := new Slot<K, V>[8](_ => Empty);
      count := 0;
      place := map[];
      new;
      assert elements.Length == Pow2(3);
    }

    /** A table of a given power-of-two capacity with every slot set to the sentinel. */
    constructor Sized(hash: K -> nat, capacity: nat)
      requires IsPow2(capacity) && CAPACITY_MIN <= capacity
      ensures Valid() && fresh(elements)
      ensures this.hash == hash && Contents() == map[] && elements.Length == capacity
    {
      this.hash := hash;
      elements := new Slot<K, V>[capacity](_ => Empty);
      count := 0;
      place := map[];
    }

    /** Probes from the home slot to the key's slot, or to the first empty slot. */
    method At(key: K) returns (i: nat)
      requires Valid()
      ensures i < elements.Length
      ensures elements[i] == if key in Contents() then Full(key, Contents()[key]) else Empty
      ensures forall p :: 0 <= p < elements.Length && Between(Home(hash, key, elements.Length), p, i) ==>
                elements[p].Full?
    {
      ghost var n := elements.Length;
      ghost var h := Home(hash, key, n);
      ghost var e := EmptySlot(elements[..], place);
      i := hash(key);
      while true
        invariant forall p :: 0 <= p < n && Between(h, p, i % n) ==> elements[p].Full? && elements[p].key != key
        invariant !Between(h, e, i % n)
        decreases Distance(i % n, e, n)
      {
        i := i % elements.Length;
        if elements[i].Empty? {
          OnTheWay(elements[..], place, hash, key, i);
          return;
        }
        if elements[i].key == key {
          return;
        }
        NextMod(i, n);
        i := i + 1;
      }
    }

    method Reserve(size: nat)
      requires Valid() && 2 * size <= WORD_TOP
      modifies this, elements
      ensures Valid() && Contents() == old(Contents()) && count == old(count)
      ensures elements == old(elements) || fresh(elements)
      ensures 2 * size <= old(elements.Length) ==> elements == old(elements)
      ensures 2 * size > old(elements.Length) ==> 2 * size <= elements.Length < 4 * size
      decreases 2 * size > elements.Length, 1
    {
      if 2 * size > elements.Length {
        Rehash(2 * size);
      }
    }

    /** Inserts the element of slot i, if there is one, into the larger table. */
    method Carry(next: Map<K, V>, i: nat)
      requires Valid() && next.Valid() && next != this && next.elements != elements && next.hash == hash
      requires i < elements.Length < next.elements.Length && elements.Length <= WORD_TOP
      requires next.Contents() == Below(elements[..], place, i)
      modifies next, next.elements
      ensures next.Valid() && next.elements == old(next.elements)
      ensures next.Contents() == Below(elements[..], place, i + 1)
      decreases true, 0, 0
    {
      BelowStep(elements[..], place, i);
      if elements[i].Full? {
        SmallerThan(next.Contents().Keys, Contents().Keys, elements[i].key);
        CountOf(next.elements[..], next.place);
        CountOf(elements[..], place);
        var _ := next.Insert(elements[i].key, elements[i].value);
      }
    }

    /** Inserts every element, in slot order. */
    method CarryAll(next: Map<K, V>)
      requires Valid() && next.Valid() && next != this && next.elements != elements && next.hash == hash
      requires elements.Length < next.elements.Length && elements.Length <= WORD_TOP
      requires next.Contents() == map[]
      modifies next, next.elements
      ensures next.Valid() && next.elements == old(next.elements)
      ensures next.Contents() == Contents() && next.count == count
      decreases true, 0, 1
    {
      hide *;
      Begun();
      var i := 0;
      while i < elements.Length
        invariant 0 <= i <= elements.Length
        invariant Valid() && Indexed(elements[..], place)
        invariant next.Valid() && next.elements == old(next.elements)
        invariant next.Contents() == Below(elements[..], place, i)
      {
        Carry(next, i);
        i := i + 1;
      }
      Carried(next);
    }

    lemma Begun()
      requires Valid()
      ensures Indexed(elements[..], place) && Below(elements[..], place, 0) == map[]
    {
      NoneBelow(elements[..], place);
    }

    lemma Carried(next: Map<K, V>)
      requires Valid() && next.Valid() && Indexed(elements[..], place)
      requires next.Contents() == Below(elements[..], place, elements.Length)
      ensures next.Contents() == Contents() && next.count == count
    {
      hide Indexed, Unbroken;
      AllBelow(elements[..], place);
      CountOf(next.elements[..], next.place);
      CountOf(elements[..], place);
    }

    /** Moves all elements to a new array of the rounded-up size. */
    method Rehash(size: nat)
      requires Valid() && elements.Length < size <= WORD_TOP
      modifies this
      ensures Valid() && Contents() == old(Contents()) && count == old(count)
      ensures fresh(elements) && size <= elements.Length < 2 * size
      decreases true, 0, 2
    {
      var capacity := Roundup(size);
      var next := new Map.Sized(hash, capacity);
      CarryAll(next);
      elements, count, place := next.elements, next.count, next.place;
    }

    /** Fills the empty slot that a probe for a new key ended at. */
    method Set(i: nat, key: K, value: V)
      requires Valid() && key !in Contents() && 2 * (count + 1) <= elements.Length
      requires i < elements.Length && elements[i].Empty?
      requires forall p :: 0 <= p < elements.Length && Between(Home(hash, key, elements.Length), p, i) ==>
                elements[p].Full?
      modifies this`count, this`place, elements
      ensures Valid() && Contents() == old(Contents())[key := value]
    {
      Placed(elements[..], place, hash, i, key, value);
      ghost var s := elements[..];
      elements[i] := Full(key, value);
      count := count + 1;
      place := place[key := i];
      assert elements[..] == s[i := Full(key, value)];
    }

    /** Adds the pair unless the key is present; a refused pair is handed back for release. */
    method Insert(key: K, value: V) returns (released: Option<(K, V)>)
      requires Valid() && 2 * (count + 1) <= WORD_TOP
      modifies this, elements
      ensures Valid()
      ensures elements == old(elements) || fresh(elements)
      ensures 2 * (old(count) + 1) <= old(elements.Length) ==> elements == old(elements)
      ensures key in old(Contents()) ==> Contents() == old(Contents()) && released == Some((key, value))
      ensures key !in old(Contents()) ==> Contents() == old(Contents())[key := value] && released == None
      decreases 2 * (count + 1) > elements.Length, 2
    {
      Reserve(count + 1);
      var i := At(key);
      released := None;
      if elements[i].Empty? {
        Set(i, key, value);
      } else {
        released := Some((key, value));
      }
    }

    /** The live elements in slot order: what iteration visits, and what the release callback gets when the
        table goes away. */
    method LiveElements() returns (released: seq<(K, V)>)
      requires Valid()
      ensures released == Entries(elements[..])
      ensures forall k, v :: (k, v) in released <==> k in Contents() && Contents()[k] == v
      ensures forall i, j :: 0 <= i < j < |released| ==> released[i].0 != released[j].0
      ensures |released| == count
    {
      released := [];
      for i := 0 to elements.Length
        invariant released == Entries(elements[..i])
      {
        assert elements[..i + 1][..i] == elements[..i];
        match elements[i] {
          case Empty =>
          case Full(k, v) => released := released + [(k, v)];
        }
      }
      assert elements[..] == elements[..elements.Length];
      EntriesAreContents(elements[..], place);
    }

    /** Releases everything and starts over at the minimum capacity. */
    method Clear() returns (released: seq<(K, V)>)
      requires Valid()
      modifies this
      ensures Valid() && Contents() == map[] && fresh(elements) && elements.Length == CAPACITY_MIN
      ensures forall k, v :: (k, v) in released <==> k in old(Contents()) && old(Contents())[k] == v
      ensures forall i, j :: 0 <= i < j < |released| ==> released[i].0 != released[j].0
      ensures |released| == old(count)
    {
      released := LiveElements();
      elements := new Slot<K, V>[8](_ => Empty);
      count, place := 0, map[];
      assert elements.Length == Pow2(3);
    }

    /** Removes the key's element, if present, and closes the gap by shifting back. */
    method Erase(key: K) returns (released: Option<(K, V)>)
      requires Valid()
      modifies this`count, this`place, elements
      ensures Valid() && Contents() == old(Contents()) - {key}
      ensures released == if key in old(Contents()) then Some((key, old(Contents())[key])) else None
    {
      var i := At(key);
      if elements[i].Empty? {
        return None;
      }
      released := Some((elements[i].key, elements[i].value));
      CloseGap(i);
    }

    method CloseGap(start: nat)
      requires Valid() && start < elements.Length && elements[start].Full?
      modifies this`count, this`place, elements
      ensures Valid() && Contents() == old(Contents()) - {old(elements[start].key)}
    {
      ghost var e := EmptySlot(elements[..], place);
      HoleOpened(elements[..], place, hash, start);
      Emptied(elements[..], place, start);
      count := count - 1;
      place := place - {elements[start].key};
      ghost var t := elements[..][start := Empty];
      ghost var kept := ContentsOf(t, place);
      var i := ShiftBack(start, e);
      elements[i] := Empty;
    }

    /** The scan from a hole that still shows its old element; i is where the hole ends up. */
    method ShiftBack(start: nat, ghost e: nat) returns (i: nat)
      requires start < elements.Length && Gap(elements[..][start := Empty], place, hash, start, start, e)
      modifies this`place, elements
      ensures i < elements.Length
      ensures var t := elements[..][i := Empty];
        && Indexed(t, place) && Unbroken(t, hash) && |place| == old(|place|)
        && ContentsOf(t, place) == old(ContentsOf(elements[..][start := Empty], place))
    {
      i := start;
      var j: nat := i;
      ghost var t := elements[..][i := Empty];
      while true
        invariant i < elements.Length && j < elements.Length && t == elements[..][i := Empty]
        invariant Gap(t, place, hash, i, j, e)
        invariant |place| == old(|place|)
        invariant ContentsOf(t, place) == old(ContentsOf(elements[..][start := Empty], place))
        decreases Distance(j, e, |t|)
      {
        NextMod(j, elements.Length);
        Scan(t, place, hash, i, j, e);
        j := (j + 1) % elements.Length;
        if elements[j].Empty? {
          break;
        }
        var k := hash(elements[j].key) % elements.Length;
        if (i < j && (k <= i || k > j)) || (i > j && k <= i && k > j) {
          place := place[elements[j].key := i];
          MoveHole(elements[..], i, j);
          t := t[i := t[j]][j := Empty];
          elements[i] := elements[j];
          i := j;
        }
      }
    }
  }

  /** A stored key is met on the way from its home slot to any empty slot. */
  lemma OnTheWay<K, V>(s: seq<Slot<K, V>>, place: map<K, nat>, hash: K -> nat, key: K, i: nat)
    requires Indexed(s, place) && Unbroken(s, hash) && i < |s| && s[i].Empty?
    ensures key in place ==> place[key] < |s| && Between(Home(hash, key, |s|), place[key], i)
  {
    if key in place {
      var h, q := Home(hash, key, |s|), place[key];
      assert s[q].Full? && s[q].key == key;
      assert !Between(h, i, q);
    }
  }

  lemma MoveHole<K, V>(s: seq<Slot<K, V>>, i: nat, j: nat)
    requires i < |s| && j < |s| && i != j
    ensures s[i := Empty][i := s[j]][j := Empty] == s[i := s[j]][j := Empty]
  {
  }

  /** Filling the empty slot that a probe for a new key ends at. */
  lemma Placed<K, V>(s: seq<Slot<K, V>>, place: map<K, nat>, hash: K -> nat, i: nat, key: K, value: V)
    requires Indexed(s, place) && Unbroken(s, hash)
    requires i < |s| && s[i].Empty? && key !in place
    requires forall p :: 0 <= p < |s| && Between(Home(hash, key, |s|), p, i) ==> s[p].Full?
    ensures var s', place' := s[i := Full(key, value)], place[key := i];
      && Indexed(s', place') && Unbroken(s', hash) && |place'| == |place| + 1
      && ContentsOf(s', place') == ContentsOf(s, place)[key := value]
  {
  }

  lemma CountOf<K, V>(s: seq<Slot<K, V>>, place: map<K, nat>)
    requires Indexed(s, place)
    ensures |place| == |ContentsOf(s, place)| == |ContentsOf(s, place).Keys|
  {
    assert place.Keys == ContentsOf(s, place).Keys;
  }

  /** What the slots below i hold. */
  ghost function Below<K, V>(s: seq<Slot<K, V>>, place: map<K, nat>, i: nat): map<K, V>
    requires Indexed(s, place)
  {
    map k | k in place && place[k] < i :: s[place[k]].value
  }

  lemma NoneBelow<K, V>(s: seq<Slot<K, V>>, place: map<K, nat>)
    requires Indexed(s, place)
    ensures Below(s, place, 0) == map[]
  {
  }

  lemma AllBelow<K, V>(s: seq<Slot<K, V>>, place: map<K, nat>)
    requires Indexed(s, place)
    ensures Below(s, place, |s|) == ContentsOf(s, place)
  {
  }

  lemma BelowStep<K, V>(s: seq<Slot<K, V>>, place: map<K, nat>, i: nat)
    requires Indexed(s, place) && i < |s|
    ensures Below(s, place, i + 1) ==
      match s[i] case Empty => Below(s, place, i) case Full(k, v) => Below(s, place, i)[k := v]
    ensures s[i].Full? ==> s[i].key in place && s[i].key !in Below(s, place, i)
    ensures Below(s, place, i).Keys <= place.Keys
  {
  }

  lemma EntriesAreContents<K, V>(s: seq<Slot<K, V>>, place: map<K, nat>)
    requires Indexed(s, place)
    ensures forall k, v :: (k, v) in Entries(s) <==> k in place && s[place[k]].value == v
    ensures |Entries(s)| == |place|
    ensures forall i, j :: 0 <= i < j < |Entries(s)| ==> Entries(s)[i].0 != Entries(s)[j].0
  {
    forall k, v ensures (k, v) in Entries(s) <==> k in place && s[place[k]].value == v {
      EntryOf(s, place, k, v);
    }
    EntriesCounted(s, place);
    EntriesDistinct(s, place);
  }

  lemma {:induction false} EntriesDistinct<K, V>(s: seq<Slot<K, V>>, place: map<K, nat>)
    requires Indexed(s, place)
    ensures forall i, j :: 0 <= i < j < |Entries(s)| ==> Entries(s)[i].0 != Entries(s)[j].0
  {
    if s != [] {
      var rest := s[..|s| - 1];
      var place' := Shorter(s, place);
      EntriesDistinct(rest, place');
      forall i | 0 <= i < |Entries(rest)| ensures s[|s| - 1].Full? ==> Entries(rest)[i].0 != s[|s| - 1].key {
        EntryOf(rest, place', Entries(rest)[i].0, Entries(rest)[i].1);
      }
    }
  }

  lemma {:induction false} EntryOf<K, V>(s: seq<Slot<K, V>>, place: map<K, nat>, k: K, v: V)
    requires Indexed(s, place)
    ensures (k, v) in Entries(s) <==> k in place && s[place[k]].value == v
  {
    if s != [] {
      var place' := Shorter(s, place);
      EntryOf(s[..|s| - 1], place', k, v);
    }
  }

  lemma {:induction false} EntriesCounted<K, V>(s: seq<Slot<K, V>>, place: map<K, nat>)
    requires Indexed(s, place)
    ensures |Entries(s)| == |place|
  {
    if s == [] {
      assert place == map[];
    } else {
      var place' := Shorter(s, place);
      EntriesCounted(s[..|s| - 1], place');
    }
  }

  /** The index of the table without its last slot. */
  lemma Shorter<K, V>(s: seq<Slot<K, V>>, place: map<K, nat>) returns (place': map<K, nat>)
    requires s != [] && Indexed(s, place)
    ensures Indexed(s[..|s| - 1], place')
    ensures place' == match s[|s| - 1] case Empty => place case Full(k, _) => place - {k}
    ensures |place'| == |place| - if s[|s| - 1].Full? then 1 else 0
  {
    var last := |s| - 1;
    if s[last].Full? {
      Emptied(s, place, last);
      place' := place - {s[last].key};
      DropLast(s[last := Empty], place');
      assert s[..last] == s[last := Empty][..last];
    } else {
      place' := place;
      DropLast(s, place);
    }
  }

  lemma DropLast<K, V>(s: seq<Slot<K, V>>, place: map<K, nat>)
    requires s != [] && Indexed(s, place) && s[|s| - 1].Empty?
    ensures Indexed(s[..|s| - 1], place)
  {
  }

  // ---- backward-shift deletion; t is the table with its hole written out as Empty

  lemma HoleOpened<K, V>(s: seq<Slot<K, V>>, place: map<K, nat>, hash: K -> nat, i: nat)
    requires Indexed(s, place) && Unbroken(s, hash) && i < |s| && s[i].Full?
    ensures UnbrokenBut(s[i := Empty], hash, i, i)
  {
  }

  lemma Emptied<K, V>(s: seq<Slot<K, V>>, place: map<K, nat>, i: nat)
    requires Indexed(s, place) && i < |s| && s[i].Full?
    ensures var t, place' := s[i := Empty], place - {s[i].key};
      && Indexed(t, place') && |place'| == |place| - 1
      && ContentsOf(t, place') == ContentsOf(s, place) - {s[i].key}
  {
    assert place.Keys == (place - {s[i].key}).Keys + {s[i].key};
  }

  /** The state of the shift: a hole, the last slot scanned, and an empty slot still ahead. */
  ghost predicate Gap<K, V>(t: seq<Slot<K, V>>, place: map<K, nat>, hash: K -> nat, hole: nat, last: nat, e: nat) {
    && hole < |t| && last < |t| && e < |t| && t[hole].Empty? && t[e].Empty? && e != hole && e != last
    && !Between(hole, e, last)
    && Indexed(t, place) && UnbrokenBut(t, hash, hole, last)
  }

  lemma ScanAhead<K, V>(t: seq<Slot<K, V>>, place: map<K, nat>, hash: K -> nat, hole: nat, last: nat, e: nat)
    requires Gap(t, place, hash, hole, last, e)
    ensures var j := Next(last, |t|);
      && j != hole
      && (j != e ==> Distance(j, e, |t|) < Distance(last, e, |t|) && !Between(hole, e, j) && !Between(j, e, j))
  {
  }

  /** One scan step: stop, move the element back, or pass over it. */
  lemma Scan<K, V>(t: seq<Slot<K, V>>, place: map<K, nat>, hash: K -> nat, hole: nat, last: nat, e: nat)
    requires Gap(t, place, hash, hole, last, e)
    ensures var j := Next(last, |t|);
      && j != hole
      && (t[j].Empty? ==> Unbroken(t, hash))
      && (t[j].Full? ==> Distance(j, e, |t|) < Distance(last, e, |t|))
      && (t[j].Full? && !Between(Home(hash, t[j].key, |t|), hole, j) ==> Gap(t, place, hash, hole, j, e))
      && (t[j].Full? && Between(Home(hash, t[j].key, |t|), hole, j) ==>
            var t', place' := t[hole := t[j]][j := Empty], place[t[j].key := hole];
            Gap(t', place', hash, j, j, e) && |place'| == |place| && ContentsOf(t', place') == ContentsOf(t, place))
  {
    ScanAhead(t, place, hash, hole, last, e);
    var j := Next(last, |t|);
    if t[j].Empty? {
      HoleClosed(t, hash, hole, last);
    } else if Between(Home(hash, t[j].key, |t|), hole, j) {
      HoleMoved(t, place, hash, hole, last, j);
    } else {
      HoleKept(t, hash, hole, last, j);
    }
  }

  /** The element at j may stay: its way does not lead over the hole. */
  lemma HoleKept<K, V>(t: seq<Slot<K, V>>, hash: K -> nat, hole: nat, last: nat, j: nat)
    requires hole < |t| && last < |t| && t[hole].Empty? && UnbrokenBut(t, hash, hole, last)
    requires j == Next(last, |t|) && j != hole && t[j].Full? && !Between(Home(hash, t[j].key, |t|), hole, j)
    ensures UnbrokenBut(t, hash, hole, j)
  {
  }

  /** The element at j fills the hole and leaves a new one. */
  lemma HoleMoved<K, V>(t: seq<Slot<K, V>>, place: map<K, nat>, hash: K -> nat, hole: nat, last: nat, j: nat)
    requires hole < |t| && last < |t| && t[hole].Empty? && UnbrokenBut(t, hash, hole, last) && Indexed(t, place)
    requires j == Next(last, |t|) && j != hole && t[j].Full? && Between(Home(hash, t[j].key, |t|), hole, j)
    ensures var t', place' := t[hole := t[j]][j := Empty], place[t[j].key := hole];
      && Indexed(t', place') && UnbrokenBut(t', hash, j, j) && |place'| == |place|
      && ContentsOf(t', place') == ContentsOf(t, place)
  {
    MovedIndex(t, place, hole, j);
    MovedPaths(t, hash, hole, last, j);
    hide Indexed, UnbrokenBut, Between, Home, Next;
    MovedContents(t, place, hole, j);
  }

  lemma MovedIndex<K, V>(t: seq<Slot<K, V>>, place: map<K, nat>, hole: nat, j: nat)
    requires hole < |t| && j < |t| && j != hole && t[hole].Empty? && t[j].Full? && Indexed(t, place)
    ensures Indexed(t[hole := t[j]][j := Empty], place[t[j].key := hole])
  {
  }

  lemma MovedContents<K, V>(t: seq<Slot<K, V>>, place: map<K, nat>, hole: nat, j: nat)
    requires hole < |t| && j < |t| && j != hole && t[hole].Empty? && t[j].Full? && Indexed(t, place)
    ensures var t', place' := t[hole := t[j]][j := Empty], place[t[j].key := hole];
      Indexed(t', place') && |place'| == |place| && ContentsOf(t', place') == ContentsOf(t, place)
  {
    MovedIndex(t, place, hole, j);
    assert place[t[j].key := hole].Keys == place.Keys;
  }

  lemma MovedPaths<K, V>(t: seq<Slot<K, V>>, hash: K -> nat, hole: nat, last: nat, j: nat)
    requires hole < |t| && last < |t| && t[hole].Empty? && UnbrokenBut(t, hash, hole, last)
    requires j == Next(last, |t|) && j != hole && t[j].Full? && Between(Home(hash, t[j].key, |t|), hole, j)
    ensures UnbrokenBut(t[hole := t[j]][j := Empty], hash, j, j)
  {
  }

  /** The scan has met an empty slot: nothing leads over the hole any more. */
  lemma HoleClosed<K, V>(t: seq<Slot<K, V>>, hash: K -> nat, hole: nat, last: nat)
    requires hole < |t| && last < |t| && t[hole].Empty? && UnbrokenBut(t, hash, hole, last)
    requires Next(last, |t|) != hole && t[Next(last, |t|)].Empty?
    ensures Unbroken(t, hash)
  {
  }

  ghost function EmptySlot<K, V>(s: seq<Slot<K, V>>, place: map<K, nat>): (e: nat)
    requires Indexed(s, place) && |place| < |s|
    ensures e < |s| && s[e].Empty?
  {
    FullSlotsCounted(s, place);
    var e: nat :| e < |s| && s[e].Empty?;
    e
  }

  lemma FullSlotsCounted<K, V>(s: seq<Slot<K, V>>, place: map<K, nat>)
    requires Indexed(s, place) && |place| < |s|
    ensures exists e :: 0 <= e < |s| && s[e].Empty?
  {
    if forall e :: 0 <= e < |s| ==> s[e].Full? {
      KeysOfFull(s, place, |s|);
    }
  }

  lemma {:induction false} KeysOfFull<K, V>(s: seq<Slot<K, V>>, place: map<K, nat>, n: nat)
    requires Indexed(s, place) && n <= |s|
    requires forall e :: 0 <= e < n ==> s[e].Full?
    ensures n <= |place|
  {
    var keys := set k | k in place && place[k] < n;
    SetOfFull(s, place, n, keys);
    Subset(keys, place.Keys);
  }

  lemma {:induction false} SetOfFull<K, V>(s: seq<Slot<K, V>>, place: map<K, nat>, n: nat, keys: set<K>)
    requires Indexed(s, place) && n <= |s|
    requires forall e :: 0 <= e < n ==> s[e].Full?
    requires forall k :: k in keys <==> k in place && place[k] < n
    ensures |keys| == n
  {
    if n == 0 {
      assert keys == {};
    } else {
      SetOfFull(s, place, n - 1, keys - {s[n - 1].key});
    }
  }

  lemma {:induction false} Subset<T>(a: set<T>, b: set<T>)
    requires a <= b
    ensures |a| <= |b|
  {
    if a != {} {
      var x :| x in a;
      Subset(a - {x}, b - {x});
    }
  }

  lemma SmallerThan<T>(a: set<T>, b: set<T>, x: T)
    requires a <= b && x in b && x !in a
    ensures |a| < |b|
  {
    Subset(a + {x}, b);
  }

  lemma NextMod(i: nat, n: nat)
    requires i < n
    ensures (i + 1) % n == Next(i, n)
  {
    if i + 1 < n {
      assert (i + 1) / n == 0;
    }
  }
}
