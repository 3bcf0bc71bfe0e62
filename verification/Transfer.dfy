/** Lists of memory segments: what they hold, when they overlap, and filling them with a payload. */
module Transfer {
  import opened Words
  import opened GuestMemory
  import opened Virtqueue

  function TotalLen(segs: seq<Segment>): nat {
    if segs == [] then 0 else segs[0].len + TotalLen(segs[1..])
  }

  /** The bytes of the segments one after another, when all of them can be read. */
  function Contents(m: Mem, segs: seq<Segment>): (r: Option<seq<u8>>)
    ensures r.Some? ==> |r.value| == TotalLen(segs)
    decreases |segs|
  {
    if segs == [] then Some([])
    else
      match ReadGuest(m, segs[0].addr, segs[0].len)
      case None => None
      case Some(bs) =>
        match Contents(m, segs[1..])
        case None => None
        case Some(rest) => Some(bs + rest)
  }

  /** A range that no segment touches. */
  ghost predicate AwayFrom(segs: seq<Segment>, b: nat, k: nat) {
    forall s | s in segs :: Disjoint(s.addr, s.len, b, k)
  }

  /** No two segments share a byte. */
  ghost predicate NonOverlapping(segs: seq<Segment>) {
    forall i, j | 0 <= i < j < |segs| :: Disjoint(segs[i].addr, segs[i].len, segs[j].addr, segs[j].len)
  }

  ghost predicate Reachable(m: Mem, segs: seq<Segment>) {
    forall s | s in segs :: InRam(m, s.addr, s.len)
  }

  lemma RestIsSeparate(segs: seq<Segment>)
    requires segs != [] && NonOverlapping(segs)
    ensures NonOverlapping(segs[1..]) && AwayFrom(segs[1..], segs[0].addr, segs[0].len)
  {
    var rest := segs[1..];
    forall i, j | 0 <= i < j < |rest| ensures Disjoint(rest[i].addr, rest[i].len, rest[j].addr, rest[j].len) {
      assert rest[i] == segs[i + 1] && rest[j] == segs[j + 1];
    }
    forall s | s in rest ensures Disjoint(s.addr, s.len, segs[0].addr, segs[0].len) {
      var i :| 0 <= i < |rest| && rest[i] == s;
      assert Disjoint(segs[0].addr, segs[0].len, segs[i + 1].addr, segs[i + 1].len);
    }
  }

  lemma SplitSegments(segs: seq<Segment>)
    requires segs != []
    ensures forall s :: s in segs <==> s == segs[0] || s in segs[1..]
  {
    assert segs == [segs[0]] + segs[1..];
  }

  lemma {:induction false} ContentsAgree(m: Mem, m': Mem, segs: seq<Segment>)
    requires forall s | s in segs :: AgreeOn(m, m', s.addr, s.len)
    ensures Contents(m, segs) == Contents(m', segs)
    decreases |segs|
  {
    if segs != [] {
      SplitSegments(segs);
      ContentsAgree(m, m', segs[1..]);
    }
  }

  lemma NarrowDisjoint(segs: seq<Segment>, b: nat, k: nat, b': nat, k': nat)
    requires AwayFrom(segs, b, k) && b <= b' && b' + k' <= b + k
    ensures AwayFrom(segs, b', k')
  {
  }

  // ----- a payload that may be shorter than the segments -----

  /** Copies data into the front of the segments; fails when they are too small or leave RAM. */
  function Fill(m: Mem, segs: seq<Segment>, data: seq<u8>): (r: (Mem, bool))
    decreases |segs|
  {
    if data == [] then (m, true)
    else if segs == [] then (m, false)
    else
      var chunk := Min(segs[0].len, |data|);
      match WriteGuest(m, segs[0].addr, data[..chunk])
      case None => (m, false)
      case Some(m') => Fill(m', segs[1..], data[chunk..])
  }

  /** The segments cut down to their first n bytes. */
  function Front(segs: seq<Segment>, n: nat): seq<Segment>
    decreases |segs|
  {
    if n == 0 || segs == [] then []
    else [segs[0].(len := Min(segs[0].len, n))] + Front(segs[1..], n - Min(segs[0].len, n))
  }

  lemma {:induction false} FrontWithin(segs: seq<Segment>, n: nat, b: nat, k: nat)
    requires AwayFrom(segs, b, k)
    ensures AwayFrom(Front(segs, n), b, k)
    decreases |segs|
  {
    if n > 0 && segs != [] {
      SplitSegments(segs);
      FrontWithin(segs[1..], n - Min(segs[0].len, n), b, k);
    }
  }

  lemma {:induction false} FillKeeps(m: Mem, segs: seq<Segment>, data: seq<u8>, b: nat, k: nat)
    ensures Fill(m, segs, data).0.regions == m.regions
    ensures AwayFrom(segs, b, k) ==> AgreeOn(m, Fill(m, segs, data).0, b, k)
    decreases |segs|
  {
    if data != [] && segs != [] {
      SplitSegments(segs);
      var chunk := Min(segs[0].len, |data|);
      if InRam(m, segs[0].addr, chunk) {
        ReadAfterStore(m, segs[0].addr, data[..chunk], b, k);
        FillKeeps(Store(m, segs[0].addr, data[..chunk]), segs[1..], data[chunk..], b, k);
      }
    }
  }

  lemma FillSteps(m: Mem, segs: seq<Segment>, data: seq<u8>)
    requires data != [] && Fill(m, segs, data).1
    ensures segs != []
    ensures var chunk := Min(segs[0].len, |data|);
      && InRam(m, segs[0].addr, chunk)
      && Fill(m, segs, data) == Fill(Store(m, segs[0].addr, data[..chunk]), segs[1..], data[chunk..])
  {
  }

  /** A payload filled into segments that do not overlap is read back from their front. */
  lemma {:induction false} FillShows(m: Mem, segs: seq<Segment>, data: seq<u8>)
    requires NonOverlapping(segs) && Fill(m, segs, data).1
    ensures Contents(Fill(m, segs, data).0, Front(segs, |data|)) == Some(data)
    decreases |segs|
  {
    if data != [] {
      FillSteps(m, segs, data);
      hide Contents, Front, AwayFrom, Disjoint, NonOverlapping, ReadGuest, Fill, InRam;
      var chunk := Min(segs[0].len, |data|);
      var first := data[..chunk];
      var m' := Store(m, segs[0].addr, first);
      StoredFirst(m, segs[0].addr, first);
      RestIsSeparate(segs);
      AwayShorter(segs[1..], segs[0].addr, segs[0].len, chunk);
      FillKeeps(m', segs[1..], data[chunk..], segs[0].addr, chunk);
      FillShows(m', segs[1..], data[chunk..]);
      FrontSteps(segs, |data|);
      ContentsJoin(Fill(m', segs[1..], data[chunk..]).0, Front(segs, |data|), first, data[chunk..]);
      assert data == first + data[chunk..];
    }
  }

  lemma ContentsJoin(m: Mem, segs: seq<Segment>, first: seq<u8>, rest: seq<u8>)
    requires segs != [] && ReadGuest(m, segs[0].addr, segs[0].len) == Some(first)
    requires Contents(m, segs[1..]) == Some(rest)
    ensures Contents(m, segs) == Some(first + rest)
  {
  }

  lemma FrontSteps(segs: seq<Segment>, n: nat)
    requires n > 0 && segs != []
    ensures var chunk := Min(segs[0].len, n);
      && Front(segs, n) != []
      && Front(segs, n)[0] == segs[0].(len := chunk)
      && Front(segs, n)[1..] == Front(segs[1..], n - chunk)
  {
  }

  lemma StoredFirst(m: Mem, addr: nat, data: seq<u8>)
    requires InRam(m, addr, |data|)
    ensures ReadGuest(Store(m, addr, data), addr, |data|) == Some(data)
  {
    ReadAfterStore(m, addr, data, 0, 0);
  }

  lemma AwayShorter(segs: seq<Segment>, b: nat, k: nat, k': nat)
    requires AwayFrom(segs, b, k) && k' <= k
    ensures AwayFrom(segs, b, k')
  {
  }

  /** Filling succeeds exactly when the segments are large enough and the part used lies in RAM. */
  lemma {:induction false} FillOkIff(m: Mem, segs: seq<Segment>, data: seq<u8>)
    ensures Fill(m, segs, data).1 <==> |data| <= TotalLen(segs) && Reachable(m, Front(segs, |data|))
    decreases |segs|
  {
    if data != [] && segs != [] {
      var chunk := Min(segs[0].len, |data|);
      FrontSteps(segs, |data|);
      SplitSegments(Front(segs, |data|));
      if InRam(m, segs[0].addr, chunk) {
        var m' := Store(m, segs[0].addr, data[..chunk]);
        assert forall s: Segment :: InRam(m', s.addr, s.len) <==> InRam(m, s.addr, s.len);
        FillOkIff(m', segs[1..], data[chunk..]);
      } else {
        assert !InRam(m, Front(segs, |data|)[0].addr, Front(segs, |data|)[0].len);
      }
    }
  }

  lemma TailSlices(s: seq<u8>, i: nat, k: nat)
    requires i + k <= |s|
    ensures s[i..][..k] == s[i..i + k] && s[i..][k..] == s[i + k..]
  {
  }
}
