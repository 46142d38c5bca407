/**
 Thread-local storage for libraries loaded at run time: load_library reserves, behind the library's
 own record, room for every thread's enlarged DTV and TLS block; install_new_tls hands it out.
 */
module TlsInstall {
  import opened Words
  import opened TlsLayout

  const SSIZE_MAX := 0x7fff_ffff_ffff_ffff

  /** A loaded library's TLS image, the record it sits in and the storage reserved behind that record. */
  datatype Reservation = Reservation(
    base: nat,      // address of the record
    length: nat,    // bytes allocated
    name: nat,      // address of the path stored in the record
    nameLen: nat,
    threads: nat,
    cnt: nat,       // tls_cnt once this library was counted
    image: Word, size: Word, align: Word)
  {
    function NewDtv(): nat
      requires name + nameLen + 8 < WORD
    {
      And(name + nameLen + 8, Neg(8))
    }

    function NewTls(): nat
      requires name + nameLen + 8 < WORD
    {
      NewDtv() + 8 * Times(threads, cnt + 1)
    }

    /** Where the room for thread j's block starts; the block itself is aligned inside it. */
    function Room(j: nat): nat
      requires name + nameLen + 8 < WORD
    {
      NewTls() + Times(j, size + align)
    }

    function Block(j: nat): nat
      requires name + nameLen + 8 < WORD && align > 0
    {
      Room(j) + And((image - Room(j)) % WORD, align - 1)
    }

    function DtvOf(j: nat): nat
      requires name + nameLen + 8 < WORD
    {
      NewDtv() + 8 * Times(j, cnt + 1)
    }
  }

  function Times(i: nat, m: nat): nat { i * m }

  function PerThread(size: Word, align: Word, oldCnt: nat): nat {
    size + align + 8 * (oldCnt + 3)
  }

  /** The size load_library passes to calloc; SIZE_MAX, which cannot be allocated, when there are too many threads. */
  function AllocSize(record: nat, nameLen: nat, size: Word, align: Word, oldCnt: nat, threads: nat): nat {
    var per := PerThread(size, align, oldCnt);
    if threads > SSIZE_MAX / per then WORD - 1 else record + nameLen + 1 + threads * per
  }

  /** A reservation as load_library makes it: record bytes, the path, then the storage. */
  ghost predicate Reserved(r: Reservation, record: nat, oldCnt: nat) {
    && IsPow2(r.align) && r.threads > 0 && r.cnt == oldCnt + 1
    && r.base <= r.name <= r.base + record
    && r.threads <= SSIZE_MAX / PerThread(r.size, r.align, oldCnt)
    && r.length == AllocSize(record, r.nameLen, r.size, r.align, oldCnt, r.threads)
    && r.base + r.length <= WORD && r.name + r.nameLen + 8 < WORD
  }

  lemma NoWrap(record: nat, nameLen: nat, size: Word, align: Word, oldCnt: nat, threads: nat)
    requires threads <= SSIZE_MAX / PerThread(size, align, oldCnt)
    ensures threads * PerThread(size, align, oldCnt) <= SSIZE_MAX
  {
    var per := PerThread(size, align, oldCnt);
    ProductFits(threads, SSIZE_MAX / per, per);
    assert SSIZE_MAX == per * (SSIZE_MAX / per) + SSIZE_MAX % per;
  }

  lemma ProductFits(i: nat, j: nat, m: nat)
    requires i <= j
    ensures i * m <= j * m
  {
    Distribute(m, j, i);
    assert (j - i) * m >= 0;
  }

  lemma NextFits(i: nat, n: nat, m: nat)
    requires i < n
    ensures i * m + m <= n * m
  {
    ProductFits(i + 1, n, m);
    assert (i + 1) * m == i * m + m;
  }

  lemma DtvArea(r: Reservation, record: nat, oldCnt: nat)
    requires Reserved(r, record, oldCnt)
    ensures r.NewDtv() % 8 == 0 && r.name + r.nameLen < r.NewDtv() <= r.name + r.nameLen + 8
  {
    hide And, IsPow2, Pow2;
    EightIsPow2();
    NegMaskRoundsDown(r.name + r.nameLen + 8, 8);
  }

  lemma EightIsPow2()
    ensures IsPow2(8)
  {
    assert Pow2(3) == 8;
  }

  /** The blocks end inside the allocation, whatever the path length and the number of threads. */
  lemma StorageSuffices(r: Reservation, record: nat, oldCnt: nat)
    requires Reserved(r, record, oldCnt)
    ensures r.base < r.NewDtv() <= r.NewTls() && r.Room(r.threads) <= r.base + r.length
  {
    hide And, IsPow2, Pow2;
    DtvArea(r, record, oldCnt);
    var n, m := r.threads, r.size + r.align;
    Spread(n, m, oldCnt);
  }

  lemma Spread(n: nat, m: nat, oldCnt: nat)
    ensures n * (m + 8 * (oldCnt + 3)) == n * m + 8 * (n * (oldCnt + 1 + 1)) + 8 * n
  {
  }

  /** A thread's DTV lies in the DTV area and before the DTV of every later thread. */
  lemma DtvFits(r: Reservation, record: nat, oldCnt: nat, j: nat, k: nat)
    requires Reserved(r, record, oldCnt) && j < k <= r.threads
    ensures r.DtvOf(j) + 8 * (r.cnt + 1) <= r.DtvOf(k) <= r.NewTls()
  {
    NextFits(j, k, r.cnt + 1);
    ProductFits(k, r.threads, r.cnt + 1);
  }

  /** A thread's block lies in the room before that of every later thread. */
  lemma BlockFits(r: Reservation, record: nat, oldCnt: nat, j: nat, k: nat)
    requires Reserved(r, record, oldCnt) && j < k <= r.threads
    ensures r.Room(j) <= r.Block(j) && r.Block(j) + r.size <= r.Room(k) <= r.Room(r.threads)
  {
    assert r.align > 0;
    hide And, IsPow2, Pow2;
    NextFits(j, k, r.size + r.align);
    ProductFits(k, r.threads, r.size + r.align);
  }

  /** A thread's block is congruent to its image. */
  lemma BlockCongruent(r: Reservation, j: nat)
    requires IsPow2(r.align) && r.name + r.nameLen + 8 < WORD
    ensures r.Block(j) % r.align == r.image % r.align
  {
    assert r.align > 0;
    hide And, IsPow2, Pow2, Reservation.Room;
    AlignedUp(r.Room(j), r.image, r.align);
  }

  lemma AlignedUp(start: nat, image: Word, a: Word)
    requires IsPow2(a) && a > 0
    ensures (start + And((image - start) % WORD, a - 1)) % a == image % a
  {
    hide And, IsPow2, Pow2;
    MaskIsMod((image - start) % WORD, a);
    ModOfWord(image - start, a);
    RoundUpTo(start, image, a);
  }

  // ---------------------------------------------------------------------------------------------
  // All the storage of one dlopen
  // ---------------------------------------------------------------------------------------------

  /** What install_new_tls hands out: the DTVs of the last library and the blocks of every new one. */
  datatype Piece = DtvPiece(thread: nat) | BlockPiece(lib: nat, thread: nat)

  /** Libraries in load order, each in an allocation of its own. */
  ghost predicate LoadedApart(rs: seq<Reservation>, records: seq<nat>, oldCnt: nat) {
    && |rs| > 0 && |records| == |rs|
    && (forall i :: 0 <= i < |rs| ==> Reserved(rs[i], records[i], oldCnt + i))
    && (forall i :: 0 <= i < |rs| ==> rs[i].threads == rs[0].threads)
    && (forall i, j :: 0 <= i < j < |rs| ==> Before(rs[i], rs[j]) || Before(rs[j], rs[i]))
  }

  predicate Before(r: Reservation, q: Reservation) { r.base + r.length <= q.base }

  predicate IsPiece(rs: seq<Reservation>, p: Piece)
    requires |rs| > 0
  {
    p.thread < rs[0].threads && (p.BlockPiece? ==> p.lib < |rs|)
  }

  function Owner(rs: seq<Reservation>, p: Piece): nat
    requires |rs| > 0
  {
    if p.BlockPiece? then p.lib else |rs| - 1
  }

  /** The addresses of a piece inside the storage of its library. */
  function StartIn(r: Reservation, p: Piece): nat
    requires r.name + r.nameLen + 8 < WORD && r.align > 0
  {
    if p.DtvPiece? then r.DtvOf(p.thread) else r.Block(p.thread)
  }

  function EndIn(r: Reservation, p: Piece): nat
    requires r.name + r.nameLen + 8 < WORD && r.align > 0
  {
    StartIn(r, p) + if p.DtvPiece? then 8 * (r.cnt + 1) else r.size
  }

  lemma InsideOwn(r: Reservation, record: nat, oldCnt: nat, p: Piece)
    requires Reserved(r, record, oldCnt) && p.thread < r.threads
    ensures r.base <= r.name + r.nameLen < StartIn(r, p) <= EndIn(r, p) <= r.base + r.length
    ensures if p.DtvPiece? then EndIn(r, p) <= r.NewTls() else r.NewTls() <= StartIn(r, p)
  {
    PieceBounds(r, record, oldCnt);
    hide Reserved, Reservation.NewDtv, Reservation.NewTls, Reservation.Room, Reservation.Block, Reservation.DtvOf, And, IsPow2;
    RoomsAfter(r, p.thread);
    RoomsAfter(r, r.threads);
    StorageSuffices(r, record, oldCnt);
    DtvArea(r, record, oldCnt);
    if p.DtvPiece? {
      DtvFits(r, record, oldCnt, p.thread, r.threads);
    } else {
      BlockFits(r, record, oldCnt, p.thread, r.threads);
    }
  }

  lemma PieceBounds(r: Reservation, record: nat, oldCnt: nat)
    requires Reserved(r, record, oldCnt)
    ensures r.align > 0 && r.base <= r.name && r.name + r.nameLen + 8 < WORD
  {
  }

  lemma RoomsAfter(r: Reservation, j: nat)
    requires r.name + r.nameLen + 8 < WORD
    ensures r.NewDtv() <= r.DtvOf(j) && r.NewTls() <= r.Room(j)
  {
    hide Reservation.NewDtv, Reservation.NewTls;
    assert j * (r.size + r.align) >= 0 && j * (r.cnt + 1) >= 0;
  }

  lemma ApartInOwn(r: Reservation, record: nat, oldCnt: nat, p: Piece, q: Piece)
    requires Reserved(r, record, oldCnt) && p.thread < r.threads && q.thread < r.threads
    requires p.DtvPiece? == q.DtvPiece? ==> p.thread < q.thread
    ensures EndIn(r, p) <= StartIn(r, q) || EndIn(r, q) <= StartIn(r, p)
  {
    PieceBounds(r, record, oldCnt);
    hide Reserved, Reservation.NewDtv, Reservation.NewTls, Reservation.Room, Reservation.Block, Reservation.DtvOf, And, IsPow2;
    InsideOwn(r, record, oldCnt, p);
    InsideOwn(r, record, oldCnt, q);
    if p.DtvPiece? && q.DtvPiece? {
      DtvFits(r, record, oldCnt, p.thread, q.thread);
    } else if p.BlockPiece? && q.BlockPiece? {
      BlockFits(r, record, oldCnt, p.thread, q.thread);
      BlockFits(r, record, oldCnt, q.thread, r.threads);
    }
  }

  ghost function Start(rs: seq<Reservation>, records: seq<nat>, oldCnt: nat, p: Piece): nat
    requires LoadedApart(rs, records, oldCnt) && IsPiece(rs, p)
  {
    StartIn(rs[Owner(rs, p)], p)
  }

  ghost function End(rs: seq<Reservation>, records: seq<nat>, oldCnt: nat, p: Piece): nat
    requires LoadedApart(rs, records, oldCnt) && IsPiece(rs, p)
  {
    EndIn(rs[Owner(rs, p)], p)
  }

  /** Every piece lies inside its library's allocation, behind the path stored there. */
  lemma PieceInside(rs: seq<Reservation>, records: seq<nat>, oldCnt: nat, p: Piece)
    requires LoadedApart(rs, records, oldCnt) && IsPiece(rs, p)
    ensures var r := rs[Owner(rs, p)];
      r.base <= r.name + r.nameLen < Start(rs, records, oldCnt, p) <= End(rs, records, oldCnt, p) <= r.base + r.length
    ensures p.BlockPiece? ==>
      Start(rs, records, oldCnt, p) % rs[p.lib].align == rs[p.lib].image % rs[p.lib].align
  {
    var k := Owner(rs, p);
    assert Reserved(rs[k], records[k], oldCnt + k) && rs[k].threads == rs[0].threads;
    PieceBounds(rs[k], records[k], oldCnt + k);
    hide LoadedApart, Reserved, StartIn, EndIn, Reservation.NewTls;
    InsideOwn(rs[k], records[k], oldCnt + k, p);
    if p.BlockPiece? { BlockStart(rs[k], records[k], oldCnt + k, p); }
  }

  lemma BlockStart(r: Reservation, record: nat, oldCnt: nat, p: Piece)
    requires Reserved(r, record, oldCnt) && p.BlockPiece?
    ensures StartIn(r, p) % r.align == r.image % r.align
  {
    BlockCongruent(r, p.thread);
  }

  /** No two pieces overlap: not two threads', not two libraries', not a DTV and a block. */
  lemma PiecesApart(rs: seq<Reservation>, records: seq<nat>, oldCnt: nat, p: Piece, q: Piece)
    requires LoadedApart(rs, records, oldCnt) && IsPiece(rs, p) && IsPiece(rs, q) && p != q
    ensures || End(rs, records, oldCnt, p) <= Start(rs, records, oldCnt, q)
            || End(rs, records, oldCnt, q) <= Start(rs, records, oldCnt, p)
  {
    hide StartIn, EndIn, Reserved;
    var k := Owner(rs, p);
    if k == Owner(rs, q) {
      assert Reserved(rs[k], records[k], oldCnt + k) && rs[k].threads == rs[0].threads;
      if p.DtvPiece? == q.DtvPiece? && q.thread < p.thread {
        ApartInOwn(rs[k], records[k], oldCnt + k, q, p);
      } else {
        ApartInOwn(rs[k], records[k], oldCnt + k, p, q);
      }
    } else {
      PieceInside(rs, records, oldCnt, p);
      PieceInside(rs, records, oldCnt, q);
    }
  }

  // ---------------------------------------------------------------------------------------------
  // install_new_tls
  // ---------------------------------------------------------------------------------------------

  class Thread {
    var dtv: seq<Word>  // slot 0 counts the modules
    var dtvAt: nat      // its address
  }

  /** A library of the chain; tlsId is 0 when it has no TLS. */
  datatype Library = Library(tlsId: nat, r: Reservation)

  /** The libraries above oldCnt are numbered in chain order up to cnt, and each could be allocated. */
  ghost predicate Numbered(chain: seq<Library>, oldCnt: nat, cnt: nat) {
    && oldCnt < cnt < WORD
    && (forall k :: 0 <= k < |chain| ==> chain[k].tlsId <= cnt)
    && (forall i, j :: 0 <= i < j < |chain| && chain[i].tlsId > oldCnt && chain[j].tlsId > oldCnt ==>
          chain[i].tlsId < chain[j].tlsId)
    && (forall k :: 0 <= k < |chain| && chain[k].tlsId > oldCnt ==>
          chain[k].r.align > 0 && chain[k].r.name + chain[k].r.nameLen + 8 < WORD)
    && (exists k :: 0 <= k < |chain| && chain[k].tlsId == cnt)
  }

  /** dtv counts cnt modules, keeps the old slots and has the blocks of thread j for the first k libraries. */
  ghost predicate DtvFor(dtv: seq<Word>, before: seq<Word>, chain: seq<Library>, k: nat, j: nat, oldCnt: nat, cnt: nat,
                         dtpOffset: Word)
    requires Numbered(chain, oldCnt, cnt) && k <= |chain|
  {
    && |dtv| == cnt + 1 && oldCnt < |before| && dtv[0] == cnt
    && (forall m :: 1 <= m <= oldCnt ==> dtv[m] == before[m])
    && (forall n :: 0 <= n < k && chain[n].tlsId > oldCnt ==> dtv[chain[n].tlsId] == (chain[n].r.Block(j) + dtpOffset) % WORD)
  }

  /** The reservations of the new libraries among the first n of the chain. */
  ghost function NewOnes(chain: seq<Library>, oldCnt: nat, n: nat): seq<Reservation>
    requires n <= |chain|
  {
    if n == 0 then []
    else NewOnes(chain, oldCnt, n - 1) + if chain[n - 1].tlsId > oldCnt then [chain[n - 1].r] else []
  }

  /** Which of the new libraries the n-th of the chain is. */
  ghost function Rank(chain: seq<Library>, oldCnt: nat, n: nat): nat
    requires n < |chain|
  {
    |NewOnes(chain, oldCnt, n)|
  }

  /** The chain after loading: the new libraries hold storage for cnt modules, apart from each other. */
  ghost predicate Loaded(chain: seq<Library>, records: seq<nat>, oldCnt: nat, cnt: nat) {
    var rs := NewOnes(chain, oldCnt, |chain|);
    && LoadedApart(rs, records, oldCnt) && oldCnt + |rs| == cnt < WORD
    && forall k :: 0 <= k < |chain| && chain[k].tlsId > oldCnt ==> chain[k].tlsId == chain[k].r.cnt
  }

  lemma {:induction false} RankIsIndex(chain: seq<Library>, oldCnt: nat, k: nat, n: nat)
    requires k < n <= |chain| && chain[k].tlsId > oldCnt
    ensures Rank(chain, oldCnt, k) < |NewOnes(chain, oldCnt, n)|
    ensures NewOnes(chain, oldCnt, n)[Rank(chain, oldCnt, k)] == chain[k].r
  {
    if k < n - 1 { RankIsIndex(chain, oldCnt, k, n - 1); }
  }

  /** Every new library has a number of its own, in chain order. */
  lemma NumberOf(chain: seq<Library>, records: seq<nat>, oldCnt: nat, cnt: nat, k: nat)
    requires Loaded(chain, records, oldCnt, cnt) && k < |chain| && chain[k].tlsId > oldCnt
    ensures var rs := NewOnes(chain, oldCnt, |chain|);
      var i := Rank(chain, oldCnt, k);
      && i < |rs| == |records| && rs[i] == chain[k].r && chain[k].tlsId == oldCnt + i + 1 <= cnt
      && Reserved(rs[i], records[i], oldCnt + i)
  {
    hide Reserved, Before;
    RankIsIndex(chain, oldCnt, k, |chain|);
    var rs := NewOnes(chain, oldCnt, |chain|);
    var i := Rank(chain, oldCnt, k);
    CountsItself(rs[i], records[i], oldCnt + i);
  }

  lemma CountsItself(r: Reservation, record: nat, oldCnt: nat)
    requires Reserved(r, record, oldCnt)
    ensures r.cnt == oldCnt + 1 && r.threads > 0
  {
  }

  lemma {:induction false} RanksGrow(chain: seq<Library>, oldCnt: nat, i: nat, j: nat)
    requires i < j < |chain| && chain[i].tlsId > oldCnt
    ensures Rank(chain, oldCnt, i) < Rank(chain, oldCnt, j)
  {
    if i < j - 1 { RanksGrow(chain, oldCnt, i, j - 1); }
  }

  lemma {:induction false} LastNew(chain: seq<Library>, oldCnt: nat, n: nat) returns (k: nat)
    requires n <= |chain| && NewOnes(chain, oldCnt, n) != []
    ensures k < n && chain[k].tlsId > oldCnt && Rank(chain, oldCnt, k) == |NewOnes(chain, oldCnt, n)| - 1
  {
    if chain[n - 1].tlsId > oldCnt {
      k := n - 1;
    } else {
      k := LastNew(chain, oldCnt, n - 1);
    }
  }

  lemma LoadedIsNumbered(chain: seq<Library>, records: seq<nat>, oldCnt: nat, cnt: nat)
    requires Loaded(chain, records, oldCnt, cnt)
    ensures Numbered(chain, oldCnt, cnt)
  {
    hide Reserved, Before;
    forall k | 0 <= k < |chain| && chain[k].tlsId > oldCnt
      ensures chain[k].tlsId <= cnt && chain[k].r.align > 0 && chain[k].r.name + chain[k].r.nameLen + 8 < WORD
    {
      NumberOf(chain, records, oldCnt, cnt, k);
      PieceBounds(chain[k].r, records[Rank(chain, oldCnt, k)], oldCnt + Rank(chain, oldCnt, k));
    }
    forall i, j | 0 <= i < j < |chain| && chain[i].tlsId > oldCnt && chain[j].tlsId > oldCnt
      ensures chain[i].tlsId < chain[j].tlsId
    {
      NumberOf(chain, records, oldCnt, cnt, i);
      NumberOf(chain, records, oldCnt, cnt, j);
      RanksGrow(chain, oldCnt, i, j);
    }
    var k := LastNew(chain, oldCnt, |chain|);
    NumberOf(chain, records, oldCnt, cnt, k);
  }

  /** A piece of the storage: inside the allocation of its library, behind the path, and apart from every other piece. */
  ghost predicate OwnStorage(rs: seq<Reservation>, records: seq<nat>, oldCnt: nat, p: Piece)
    requires LoadedApart(rs, records, oldCnt) && IsPiece(rs, p)
  {
    var r, start, end := rs[Owner(rs, p)], Start(rs, records, oldCnt, p), End(rs, records, oldCnt, p);
    && r.base <= r.name + r.nameLen < start <= end <= r.base + r.length
    && forall q :: IsPiece(rs, q) && q != p ==> end <= Start(rs, records, oldCnt, q) || End(rs, records, oldCnt, q) <= start
  }

  lemma PieceOwnsStorage(rs: seq<Reservation>, records: seq<nat>, oldCnt: nat, p: Piece)
    requires LoadedApart(rs, records, oldCnt) && IsPiece(rs, p)
    ensures OwnStorage(rs, records, oldCnt, p)
  {
    PieceInside(rs, records, oldCnt, p);
    hide LoadedApart, Start, End;
    forall q | IsPiece(rs, q) && q != p
      ensures || End(rs, records, oldCnt, p) <= Start(rs, records, oldCnt, q)
              || End(rs, records, oldCnt, q) <= Start(rs, records, oldCnt, p)
    {
      PiecesApart(rs, records, oldCnt, p, q);
    }
  }

  /**
   What thread j has got: a DTV in storage of its own, which keeps the old slots and leads to blocks in storage of
   their own.
   */
  ghost predicate Installed(thread: Thread, before: seq<Word>, chain: seq<Library>, records: seq<nat>, oldCnt: nat, cnt: nat,
                            j: nat, dtpOffset: Word)
    requires Loaded(chain, records, oldCnt, cnt)
    reads thread
  {
    var rs := NewOnes(chain, oldCnt, |chain|);
    && |thread.dtv| == cnt + 1 && thread.dtv[0] == cnt && oldCnt < |before|
    && (forall m :: 1 <= m <= oldCnt ==> thread.dtv[m] == before[m])
    && IsPiece(rs, DtvPiece(j)) && thread.dtvAt == Start(rs, records, oldCnt, DtvPiece(j))
    && OwnStorage(rs, records, oldCnt, DtvPiece(j))
    && forall k :: 0 <= k < |chain| && chain[k].tlsId > oldCnt ==>
         BlockInstalled(thread, chain, k, records, oldCnt, cnt, j, dtpOffset)
  }

  /** The slot of a new library leads to the thread's block, congruent to the image. */
  ghost predicate BlockInstalled(thread: Thread, chain: seq<Library>, k: nat, records: seq<nat>, oldCnt: nat, cnt: nat,
                                 j: nat, dtpOffset: Word)
    requires Loaded(chain, records, oldCnt, cnt) && k < |chain| && chain[k].tlsId > oldCnt
    reads thread
  {
    var rs := NewOnes(chain, oldCnt, |chain|);
    var p := BlockPiece(Rank(chain, oldCnt, k), j);
    && IsPiece(rs, p) && rs[p.lib] == chain[k].r && chain[k].r.align > 0 && chain[k].tlsId < |thread.dtv|
    && thread.dtv[chain[k].tlsId] == (Start(rs, records, oldCnt, p) + dtpOffset) % WORD
    && Start(rs, records, oldCnt, p) % chain[k].r.align == chain[k].r.image % chain[k].r.align
    && OwnStorage(rs, records, oldCnt, p)
  }

  lemma BlockPlace(rs: seq<Reservation>, records: seq<nat>, oldCnt: nat, p: Piece)
    requires LoadedApart(rs, records, oldCnt) && p.BlockPiece? && p.lib < |rs| && p.thread < rs[0].threads
    ensures IsPiece(rs, p) && rs[p.lib].align > 0 && rs[p.lib].name + rs[p.lib].nameLen + 8 < WORD
    ensures Start(rs, records, oldCnt, p) == rs[p.lib].Block(p.thread)
    ensures Start(rs, records, oldCnt, p) % rs[p.lib].align == rs[p.lib].image % rs[p.lib].align
  {
    hide And, Times;
    PieceInside(rs, records, oldCnt, p);
    PieceBounds(rs[p.lib], records[p.lib], oldCnt + p.lib);
  }

  lemma BlockIsInstalled(thread: Thread, before: seq<Word>, chain: seq<Library>, k: nat, records: seq<nat>, oldCnt: nat, cnt: nat,
                         j: nat, dtpOffset: Word)
    requires Loaded(chain, records, oldCnt, cnt) && Numbered(chain, oldCnt, cnt) && k < |chain| && chain[k].tlsId > oldCnt
    requires DtvFor(thread.dtv, before, chain, |chain|, j, oldCnt, cnt, dtpOffset)
    requires j < NewOnes(chain, oldCnt, |chain|)[0].threads
    ensures BlockInstalled(thread, chain, k, records, oldCnt, cnt, j, dtpOffset)
  {
    hide Reserved, OwnStorage, Before, Start, End, And, Times, NewOnes, Rank, LoadedApart, Numbered;
    NumberOf(chain, records, oldCnt, cnt, k);
    var rs := NewOnes(chain, oldCnt, |chain|);
    var p := BlockPiece(Rank(chain, oldCnt, k), j);
    BlockPlace(rs, records, oldCnt, p);
    PieceOwnsStorage(rs, records, oldCnt, p);
  }

  lemma IsInstalled(thread: Thread, before: seq<Word>, chain: seq<Library>, records: seq<nat>, oldCnt: nat, cnt: nat,
                    j: nat, dtpOffset: Word)
    requires Loaded(chain, records, oldCnt, cnt) && Numbered(chain, oldCnt, cnt)
    requires DtvFor(thread.dtv, before, chain, |chain|, j, oldCnt, cnt, dtpOffset)
    requires var rs := NewOnes(chain, oldCnt, |chain|);
      j < rs[0].threads && thread.dtvAt == Start(rs, records, oldCnt, DtvPiece(j))
    ensures Installed(thread, before, chain, records, oldCnt, cnt, j, dtpOffset)
  {
    hide BlockInstalled, OwnStorage, Reserved, Before;
    PieceOwnsStorage(NewOnes(chain, oldCnt, |chain|), records, oldCnt, DtvPiece(j));
    forall k | 0 <= k < |chain| && chain[k].tlsId > oldCnt
      ensures BlockInstalled(thread, chain, k, records, oldCnt, cnt, j, dtpOffset)
    {
      BlockIsInstalled(thread, before, chain, k, records, oldCnt, cnt, j, dtpOffset);
    }
  }

  lemma DtvPlace(rs: seq<Reservation>, records: seq<nat>, oldCnt: nat, j: nat)
    requires LoadedApart(rs, records, oldCnt)
    ensures var provider := rs[|rs| - 1];
      && provider.cnt == oldCnt + |rs| && provider.name + provider.nameLen + 8 < WORD
      && (j < rs[0].threads ==> IsPiece(rs, DtvPiece(j)) && Start(rs, records, oldCnt, DtvPiece(j)) == provider.DtvOf(j))
  {
    hide Reserved;
    var k := |rs| - 1;
    PieceBounds(rs[k], records[k], oldCnt + k);
    CountsItself(rs[k], records[k], oldCnt + k);
  }

  /** provider is the last of the new libraries, the one whose storage has the DTVs. */
  method InstallNewTls(threads: seq<Thread>, chain: seq<Library>, provider: Reservation, tlsCnt: nat, dtpOffset: Word,
                       ghost records: seq<nat>)
    requires |threads| > 0 && |threads[0].dtv| > 0 && forall i, j :: 0 <= i < j < |threads| ==> threads[i] != threads[j]
    requires forall j :: 0 <= j < |threads| ==> threads[0].dtv[0] < |threads[j].dtv|
    requires Loaded(chain, records, threads[0].dtv[0], tlsCnt)
    requires var rs := NewOnes(chain, threads[0].dtv[0], |chain|); provider == rs[|rs| - 1] && |threads| <= rs[0].threads
    modifies threads
    ensures forall j :: 0 <= j < |threads| ==>
      Installed(threads[j], old(threads[j].dtv), chain, records, old(threads[0].dtv[0]), tlsCnt, j, dtpOffset)
  {
    hide DtvFor, Installed, LoadedApart, Numbered, IsPiece, Start, NewOnes, Times, And;
    var oldCnt := threads[0].dtv[0];
    ghost var rs := NewOnes(chain, oldCnt, |chain|);
    LoadedIsNumbered(chain, records, oldCnt, tlsCnt);
    DtvPlace(rs, records, oldCnt, 0);
    var newdtv := CopyDtvs(threads, chain, oldCnt, tlsCnt, dtpOffset);
    newdtv := FillAll(threads, newdtv, chain, oldCnt, tlsCnt, dtpOffset);
    for j := 0 to |threads|
      invariant forall i :: 0 <= i < j ==> threads[i].dtv == newdtv[i] && threads[i].dtvAt == provider.DtvOf(i)
      invariant forall i :: j <= i < |threads| ==> threads[i].dtv == old(threads[i].dtv)
    {
      threads[j].dtv := newdtv[j];
      threads[j].dtvAt := provider.NewDtv() + 8 * Times(j, tlsCnt + 1);
    }
    forall j | 0 <= j < |threads|
      ensures Installed(threads[j], old(threads[j].dtv), chain, records, oldCnt, tlsCnt, j, dtpOffset)
    {
      DtvPlace(rs, records, oldCnt, j);
      IsInstalled(threads[j], old(threads[j].dtv), chain, records, oldCnt, tlsCnt, j, dtpOffset);
    }
  }

  /** Copies every thread's DTV into a longer one. */
  method CopyDtvs(threads: seq<Thread>, ghost chain: seq<Library>, oldCnt: nat, tlsCnt: nat, ghost dtpOffset: Word)
    returns (newdtv: seq<seq<Word>>)
    requires Numbered(chain, oldCnt, tlsCnt) && forall j :: 0 <= j < |threads| ==> oldCnt < |threads[j].dtv|
    ensures |newdtv| == |threads|
    ensures forall j :: 0 <= j < |threads| ==> DtvFor(newdtv[j], threads[j].dtv, chain, 0, j, oldCnt, tlsCnt, dtpOffset)
  {
    newdtv := [];
    for i := 0 to |threads|
      invariant |newdtv| == i
      invariant forall j :: 0 <= j < i ==> DtvFor(newdtv[j], threads[j].dtv, chain, 0, j, oldCnt, tlsCnt, dtpOffset)
    {
      var blank: seq<Word> := seq(tlsCnt - oldCnt, _ => 0);
      var dtv: seq<Word> := (threads[i].dtv[..oldCnt + 1] + blank)[0 := tlsCnt];
      newdtv := newdtv + [dtv];
    }
  }

  /** Walks the chain up to the library numbered tlsCnt, filling the slots of the new ones. */
  method FillAll(threads: seq<Thread>, newdtv0: seq<seq<Word>>, chain: seq<Library>, oldCnt: nat, tlsCnt: nat, dtpOffset: Word)
    returns (newdtv: seq<seq<Word>>)
    requires Numbered(chain, oldCnt, tlsCnt) && |newdtv0| == |threads|
    requires forall j :: 0 <= j < |threads| ==> DtvFor(newdtv0[j], threads[j].dtv, chain, 0, j, oldCnt, tlsCnt, dtpOffset)
    ensures |newdtv| == |threads|
    ensures forall j :: 0 <= j < |threads| ==> DtvFor(newdtv[j], threads[j].dtv, chain, |chain|, j, oldCnt, tlsCnt, dtpOffset)
  {
    newdtv := newdtv0;
    var k := 0;
    while true
      invariant k < |chain| && |newdtv| == |threads| && forall n :: 0 <= n < k ==> chain[n].tlsId != tlsCnt
      invariant forall j :: 0 <= j < |threads| ==> DtvFor(newdtv[j], threads[j].dtv, chain, k, j, oldCnt, tlsCnt, dtpOffset)
      decreases |chain| - k
    {
      if chain[k].tlsId > oldCnt {
        newdtv := FillSlot(threads, newdtv, chain, k, oldCnt, tlsCnt, dtpOffset);
        if chain[k].tlsId == tlsCnt { break; }
      }
      k := k + 1;
    }
  }

  /** Hands the room of one library out to the threads in turn. */
  method FillSlot(threads: seq<Thread>, newdtv0: seq<seq<Word>>, chain: seq<Library>, k: nat, oldCnt: nat, tlsCnt: nat,
                  dtpOffset: Word)
    returns (newdtv: seq<seq<Word>>)
    requires Numbered(chain, oldCnt, tlsCnt) && k < |chain| && chain[k].tlsId > oldCnt && |newdtv0| == |threads|
    requires forall j :: 0 <= j < |threads| ==> DtvFor(newdtv0[j], threads[j].dtv, chain, k, j, oldCnt, tlsCnt, dtpOffset)
    ensures |newdtv| == |threads|
    ensures forall j :: 0 <= j < |threads| ==> DtvFor(newdtv[j], threads[j].dtv, chain, k + 1, j, oldCnt, tlsCnt, dtpOffset)
  {
    newdtv := newdtv0;
    var r, id := chain[k].r, chain[k].tlsId;
    hide And;
    var mem := r.NewTls();
    for j := 0 to |threads|
      invariant |newdtv| == |threads| && mem == r.Room(j)
      invariant forall i :: 0 <= i < j ==> DtvFor(newdtv[i], threads[i].dtv, chain, k + 1, i, oldCnt, tlsCnt, dtpOffset)
      invariant forall i :: j <= i < |threads| ==> newdtv[i] == newdtv0[i]
    {
      var block := mem + And((r.image - mem) % WORD, r.align - 1);
      var entry: Word := (block + dtpOffset) % WORD;
      var dtv: seq<Word> := newdtv[j][id := entry];
      newdtv := newdtv[j := dtv];
      RoomGrows(r, j);
      mem := mem + (r.size + r.align);
    }
  }

  lemma RoomGrows(r: Reservation, j: nat)
    requires r.name + r.nameLen + 8 < WORD
    ensures r.Room(j + 1) == r.Room(j) + (r.size + r.align)
  {
    assert (j + 1) * (r.size + r.align) == j * (r.size + r.align) + (r.size + r.align);
  }
}
