/** What SQLite promises about the journal it wrote, and what the replay makes of such a journal. */
module RollbackJournal {
  import opened Bytes
  import opened Crypto
  import opened Journal

  /** One journal segment: its nonce, its records, and whether its header counts them. */
  datatype Segment = Segment(nonce: nat, counted: bool, recs: seq<Rec>)

  function AllRecords(segs: seq<Segment>): seq<Rec> {
    if segs == [] then [] else segs[0].recs + AllRecords(segs[1..])
  }

  /** The stream holds these records back to back from `off`, each with a valid checksum and a page
      number inside the database of `pages` pages. */
  predicate RecordsAt(j: seq<byte>, off: nat, recs: seq<Rec>, nonce: nat, pages: nat)
    decreases |recs|
  {
    recs == []
    || (&& off + RECORD_LEN <= |j|
        && RecordAt(j, off) == recs[0]
        && Usable(recs[0], nonce, pages)
        && RecordsAt(j, off + RECORD_LEN, recs[1..], nonce, pages))
  }

  /** Where records that start at `off` end. */
  function EndOf(off: nat, recs: seq<Rec>): (end: nat)
    ensures end >= off
    decreases |recs|
  {
    if recs == [] then off else EndOf(off + RECORD_LEN, recs[1..])
  }

  predicate HeaderAt(j: seq<byte>, seg: nat, sector: nat) {
    HasMagic(j, seg) && Be32(j, seg + 24) == BLOCK_SIZE && Be32(j, seg + 20) == sector
  }

  /** A record that ends the journal: torn, stale, or the zero marker. */
  predicate Ends(r: Rec, nonce: nat) {
    r.checksum != Checksum(nonce, r.page) || r.pgno == 0
  }

  /** From `seg` the stream holds exactly these segments, each at a sector boundary. A counted
      segment says how many records it has. An uncounted one runs until the stream has no room for
      another record, or until a record that ends the journal. */
  predicate SegmentsAt(j: seq<byte>, seg: nat, sector: nat, segs: seq<Segment>, pages: nat)
    requires sector > 0
    decreases |segs|
  {
    if segs == [] then !HeaderAt(j, seg, sector)
    else
      var s := segs[0];
      var end := EndOf(seg + sector, s.recs);
      && HeaderAt(j, seg, sector)
      && Be32(j, seg + 12) == s.nonce
      && RecordsAt(j, seg + sector, s.recs, s.nonce, pages)
      && Budget(Be32(j, seg + 8)) == (if s.counted then Some(|s.recs|) else None)
      && if !s.counted && end + RECORD_LEN <= |j|
         then Ends(RecordAt(j, end), s.nonce) && |segs| == 1
         else SegmentsAt(j, RoundUp(end, sector), sector, segs[1..], pages)
  }

  /** A rollback journal for a database that had `pages` pages. */
  predicate Journals(j: seq<byte>, segs: seq<Segment>, pages: nat) {
    && Framed(j)
    && Be32(j, 16) == pages
    && SegmentsAt(j, 0, Be32(j, 20), segs, pages)
  }

  /** The records hold the pre-image of every page of `pre` that `main` no longer has. */
  predicate Covers(pre: seq<Page>, main: seq<Page>, recs: seq<Rec>) {
    && (forall r <- recs :: 0 < r.pgno <= |pre| && r.page == pre[r.pgno - 1])
    && forall k :: 0 <= k < |pre| ==> Kept(pre, main, k) || Saved(k, recs)
  }

  predicate Kept(pre: seq<Page>, main: seq<Page>, k: nat)
    requires k < |pre|
  {
    k < |main| && main[k] == pre[k]
  }

  predicate Saved(k: nat, recs: seq<Rec>) {
    exists r <- recs :: r.pgno == k + 1
  }

  function PutAll(shadow: seq<Page>, recs: seq<Rec>): (s: seq<Page>)
    requires forall r <- recs :: r.pgno > 0
    ensures |s| >= |shadow|
    decreases |recs|
  {
    if recs == [] then shadow else PutAll(Put(shadow, recs[0].pgno, recs[0].page), recs[1..])
  }

  lemma PutAllAppend(shadow: seq<Page>, a: seq<Rec>, b: seq<Rec>)
    requires forall r <- a + b :: r.pgno > 0
    ensures (forall r <- a :: r.pgno > 0) && (forall r <- b :: r.pgno > 0)
    ensures PutAll(shadow, a + b) == PutAll(PutAll(shadow, a), b)
    decreases |a|
  {
    forall r | r in a || r in b ensures r.pgno > 0 { assert r in a + b; }
    if a == [] {
      assert a + b == b;
    } else {
      assert (a + b)[1..] == a[1..] + b && (a + b)[0] == a[0];
      PutAllAppend(Put(shadow, a[0].pgno, a[0].page), a[1..], b);
    }
  }

  /** Writing the saved pages back restores every page of the pre-image. */
  lemma {:induction false} CoversRestores(pre: seq<Page>, shadow: seq<Page>, recs: seq<Rec>)
    requires Covers(pre, shadow, recs)
    ensures |PutAll(shadow, recs)| >= |pre| && PutAll(shadow, recs)[..|pre|] == pre
    decreases |recs|
  {
    if recs == [] {
      forall k | 0 <= k < |pre| ensures k < |shadow| && shadow[k] == pre[k] {
        assert Kept(pre, shadow, k) || Saved(k, recs);
      }
      assert |pre| > 0 ==> Kept(pre, shadow, |pre| - 1) || Saved(|pre| - 1, recs);
    } else {
      var r := recs[0];
      assert r in recs;
      var next := Put(shadow, r.pgno, r.page);
      forall q | q in recs[1..] ensures 0 < q.pgno <= |pre| && q.page == pre[q.pgno - 1] { assert q in recs; }
      forall k | 0 <= k < |pre| ensures Kept(pre, next, k) || Saved(k, recs[1..]) {
        assert Kept(pre, shadow, k) || Saved(k, recs);
        if k != r.pgno - 1 && !Kept(pre, shadow, k) {
          var q :| q in recs && q.pgno == k + 1;
          assert q in recs[1..];
        }
      }
      CoversRestores(pre, next, recs[1..]);
    }
  }

  /** What is left of a record budget after `n` records. */
  function Less(left: Option<nat>, n: nat): Option<nat>
    requires left.Some? ==> left.value >= n
  {
    if left.Some? then Some(left.value - n) else None
  }

  lemma {:induction false} RecordsPositive(j: seq<byte>, off: nat, recs: seq<Rec>, nonce: nat, pages: nat)
    requires RecordsAt(j, off, recs, nonce, pages)
    ensures forall r <- recs :: r.pgno > 0
    decreases |recs|
  {
    if recs != [] {
      RecordsPositive(j, off + RECORD_LEN, recs[1..], nonce, pages);
      forall r | r in recs ensures r.pgno > 0 { assert r == recs[0] || r in recs[1..]; }
    }
  }

  lemma WalkTakesOne(j: seq<byte>, w: Walk, left: Option<nat>, nonce: nat, maxPages: nat)
    requires !w.stopped && |w.shadow| <= maxPages && w.off + RECORD_LEN <= |j|
    requires left.Some? ==> left.value > 0
    requires Usable(RecordAt(j, w.off), nonce, maxPages)
    ensures
      var r := RecordAt(j, w.off);
      && |Put(w.shadow, r.pgno, r.page)| <= maxPages
      && WalkRecords(j, w, left, nonce, maxPages)
         == WalkRecords(j, Walk(Put(w.shadow, r.pgno, r.page), w.off + RECORD_LEN, false), Less(left, 1), nonce, maxPages)
  {
    assert left != Some(0);
  }

  lemma {:induction false} WalkTakesRecords(j: seq<byte>, w: Walk, recs: seq<Rec>, left: Option<nat>, nonce: nat, pages: nat, maxPages: nat)
    requires !w.stopped && |w.shadow| <= maxPages && pages <= maxPages
    requires RecordsAt(j, w.off, recs, nonce, pages)
    requires left.Some? ==> left.value >= |recs|
    ensures forall r <- recs :: r.pgno > 0
    ensures |PutAll(w.shadow, recs)| <= maxPages
    ensures WalkRecords(j, w, left, nonce, maxPages)
         == WalkRecords(j, Walk(PutAll(w.shadow, recs), EndOf(w.off, recs), false), Less(left, |recs|), nonce, maxPages)
    decreases |recs|
  {
    RecordsPositive(j, w.off, recs, nonce, pages);
    if recs == [] {
      assert Walk(PutAll(w.shadow, recs), w.off, false) == w && Less(left, 0) == left;
    } else {
      var r, rest := recs[0], recs[1..];
      WalkTakesOne(j, w, left, nonce, maxPages);
      var next := Walk(Put(w.shadow, r.pgno, r.page), w.off + RECORD_LEN, false);
      WalkTakesRecords(j, next, rest, Less(left, 1), nonce, pages, maxPages);
      assert recs == [r] + rest;
      assert PutAll(w.shadow, recs) == PutAll(next.shadow, rest);
      assert Less(Less(left, 1), |rest|) == Less(left, |recs|);
      assert EndOf(w.off, recs) == EndOf(next.off, rest);
    }
  }

  /** One segment: its records go into the shadow, and the loop moves on or stops. */
  lemma WalkTakesOneSegment(j: seq<byte>, seg: nat, sector: nat, segs: seq<Segment>, shadow: seq<Page>, pages: nat, maxPages: nat)
    requires sector > 0 && |shadow| <= maxPages && pages <= maxPages && segs != []
    requires SegmentsAt(j, seg, sector, segs, pages)
    ensures forall r <- segs[0].recs :: r.pgno > 0
    ensures |PutAll(shadow, segs[0].recs)| <= maxPages
    ensures
      var end := EndOf(seg + sector, segs[0].recs);
      var after := PutAll(shadow, segs[0].recs);
      WalkSegments(j, seg, sector, maxPages, shadow)
      == if !segs[0].counted && end + RECORD_LEN <= |j| then after
         else WalkSegments(j, RoundUp(end, sector), sector, maxPages, after)
  {
    var s := segs[0];
    var left := Budget(Be32(j, seg + 8));
    WalkTakesRecords(j, Walk(shadow, seg + sector, false), s.recs, left, s.nonce, pages, maxPages);
    var w := WalkRecords(j, Walk(shadow, seg + sector, false), left, s.nonce, maxPages);
    var end := EndOf(seg + sector, s.recs);
    assert w == Walk(PutAll(shadow, s.recs), end, !s.counted && end + RECORD_LEN <= |j|);
  }

  /** The segment loop applies the records of every segment, in order, and nothing else. */
  lemma {:induction false} WalkTakesSegments(j: seq<byte>, seg: nat, sector: nat, segs: seq<Segment>, shadow: seq<Page>, pages: nat, maxPages: nat)
    requires sector > 0 && |shadow| <= maxPages && pages <= maxPages
    requires SegmentsAt(j, seg, sector, segs, pages)
    ensures forall r <- AllRecords(segs) :: r.pgno > 0
    ensures WalkSegments(j, seg, sector, maxPages, shadow) == PutAll(shadow, AllRecords(segs))
    decreases |segs|
  {
    if segs != [] {
      var s := segs[0];
      var end := EndOf(seg + sector, s.recs);
      WalkTakesOneSegment(j, seg, sector, segs, shadow, pages, maxPages);
      var after := PutAll(shadow, s.recs);
      if !s.counted && end + RECORD_LEN <= |j| {
        assert segs[1..] == [];
        assert s.recs + [] == s.recs;
      } else {
        WalkTakesSegments(j, RoundUp(end, sector), sector, segs[1..], after, pages, maxPages);
        forall r | r in s.recs + AllRecords(segs[1..]) ensures r.pgno > 0 {
          assert r in s.recs || r in AllRecords(segs[1..]);
        }
        PutAllAppend(shadow, s.recs, AllRecords(segs[1..]));
      }
    }
  }

  /** The heart of crash recovery: whichever pages of the transaction reached the main file, a journal
      that saved every page that differs rolls it back to the image before the transaction. The
      source does not truncate to a recorded size of zero, so an empty pre-image is restored only when
      nothing was written. */
  lemma ReplayRestores(j: seq<byte>, segs: seq<Segment>, pre: seq<Page>, main: seq<Page>)
    requires Journals(j, segs, |pre|)
    requires Covers(pre, main, AllRecords(segs))
    ensures Replay(j, main) == Ok(pre) <==> |pre| > 0 || main == []
  {
    var maxPages := MaxPages(j, |pre|, |main|);
    WalkTakesSegments(j, 0, Be32(j, 20), segs, main, |pre|, maxPages);
    CoversRestores(pre, main, AllRecords(segs));
    var shadow := PutAll(main, AllRecords(segs));
    if pre == [] {
      assert forall r <- AllRecords(segs) :: false;
      assert shadow == main;
    } else if |pre| == |shadow| {
      assert shadow[..|pre|] == shadow;
    }
  }
}
