/** The poll and select back ends of libev-4.15 as two representations of one map from descriptors to events. */
module Backends {

  const EV_READ: bv8 := 1
  const EV_WRITE: bv8 := 2
  const POLLIN: bv16 := 1
  const POLLOUT: bv16 := 4
  const POLLERR: bv16 := 8
  const POLLHUP: bv16 := 16

  /** What is asked for of each descriptor; descriptors nobody asks for are absent. */
  type Interest = map<nat, bv8>

  predicate Plain(m: bv8) { m & 0xfc == 0 }

  predicate Reads(m: bv8) { m & EV_READ != 0 }

  predicate Writes(m: bv8) { m & EV_WRITE != 0 }

  ghost predicate Sane(m: Interest) { forall fd :: fd in m ==> m[fd] != 0 && Plain(m[fd]) }

  /** What a back end is asked to do: the interest in one descriptor goes from `oev` to `nev`. */
  function Modified(m: Interest, fd: nat, oev: bv8, nev: bv8): Interest {
    if oev == nev then m else if nev == 0 then m - {fd} else m[fd := nev]
  }

  /** The mask of a descriptor. */
  function MaskAt(m: Interest, fd: nat): bv8 { if fd in m then m[fd] else 0 }

  /** If the caller knows the present mask, the new one always takes its place. */
  lemma ModifiedAt(m: Interest, fd: nat, nev: bv8, g: nat)
    requires Sane(m)
    ensures MaskAt(Modified(m, fd, MaskAt(m, fd), nev), g) == if g == fd then nev else MaskAt(m, g)
  {
  }

  lemma SaneModified(m: Interest, fd: nat, oev: bv8, nev: bv8)
    requires Sane(m) && Plain(nev)
    ensures Sane(Modified(m, fd, oev, nev))
  {
    hide Plain;
  }

  // ---------- ev_poll.c ----------

  datatype PollFd = PollFd(fd: nat, events: bv16)

  function ToPoll(m: bv8): bv16 {
    (if m & EV_READ != 0 then POLLIN else 0) | (if m & EV_WRITE != 0 then POLLOUT else 0)
  }

  /** `polls` lists the descriptors asked for, densely, and `idxs` says where each of them is. */
  ghost predicate PollOk(polls: seq<PollFd>, idxs: seq<int>, m: Interest) {
    && (forall i: nat :: i < |polls| ==> SlotOk(polls, idxs, m, i))
    && (forall fd: nat :: fd < |idxs| ==> IdxOk(polls, idxs, m, fd))
    && (forall fd :: fd in m ==> fd < |idxs|)
  }

  ghost predicate SlotOk(polls: seq<PollFd>, idxs: seq<int>, m: Interest, i: nat)
    requires i < |polls|
  {
    var p := polls[i];
    p.fd < |idxs| && idxs[p.fd] == i && p.fd in m && p.events == ToPoll(m[p.fd])
  }

  ghost predicate IdxOk(polls: seq<PollFd>, idxs: seq<int>, m: Interest, fd: nat)
    requires fd < |idxs|
  {
    if fd in m then 0 <= idxs[fd] < |polls| && polls[idxs[fd]].fd == fd else idxs[fd] == -1
  }

  ghost predicate IdxGrown(idxs: seq<int>, idxs': seq<int>) {
    |idxs| <= |idxs'| && idxs'[..|idxs|] == idxs && forall g :: |idxs| <= g < |idxs'| ==> idxs'[g] == -1
  }

  lemma GrowPoll(polls: seq<PollFd>, idxs: seq<int>, idxs': seq<int>, m: Interest)
    requires PollOk(polls, idxs, m) && IdxGrown(idxs, idxs')
    ensures PollOk(polls, idxs', m)
  {
    forall g | 0 <= g < |idxs| ensures idxs'[g] == idxs[g] { assert idxs'[..|idxs|][g] == idxs'[g]; }
    forall i: nat | i < |polls| ensures SlotOk(polls, idxs', m, i) { assert SlotOk(polls, idxs, m, i); }
    forall fd: nat | fd < |idxs'| ensures IdxOk(polls, idxs', m, fd) {
      if fd < |idxs| { assert IdxOk(polls, idxs, m, fd); }
    }
  }

  /** Another mask for a descriptor that is listed. */
  lemma ChangePoll(polls: seq<PollFd>, idxs: seq<int>, m: Interest, fd: nat, nev: bv8)
    requires PollOk(polls, idxs, m) && fd < |idxs| && fd in m
    ensures IdxOk(polls, idxs, m, fd)
    ensures PollOk(polls[idxs[fd] := PollFd(fd, ToPoll(nev))], idxs, m[fd := nev])
  {
    hide ToPoll;
    assert IdxOk(polls, idxs, m, fd);
    var idx: nat := idxs[fd];
    var polls', m' := polls[idx := PollFd(fd, ToPoll(nev))], m[fd := nev];
    forall i: nat | i < |polls'| ensures SlotOk(polls', idxs, m', i) { assert SlotOk(polls, idxs, m, i); }
    forall g: nat | g < |idxs| ensures IdxOk(polls', idxs, m', g) { assert IdxOk(polls, idxs, m, g); }
  }

  /** A new entry at the end. */
  lemma AddPoll(polls: seq<PollFd>, idxs: seq<int>, m: Interest, fd: nat, nev: bv8)
    requires PollOk(polls, idxs, m) && fd < |idxs| && fd !in m
    ensures PollOk(polls + [PollFd(fd, ToPoll(nev))], idxs[fd := |polls|], m[fd := nev])
  {
    hide ToPoll;
    var polls', idxs', m' := polls + [PollFd(fd, ToPoll(nev))], idxs[fd := |polls|], m[fd := nev];
    forall i: nat | i < |polls'| ensures SlotOk(polls', idxs', m', i) {
      if i < |polls| { assert SlotOk(polls, idxs, m, i); }
    }
    forall g: nat | g < |idxs'| ensures IdxOk(polls', idxs', m', g) { assert IdxOk(polls, idxs, m, g); }
  }

  /** What is left when the entry of `fd` is replaced by the last one. */
  function DropSlot(polls: seq<PollFd>, idx: nat): seq<PollFd>
    requires idx < |polls|
  {
    if idx < |polls| - 1 then polls[idx := polls[|polls| - 1]][..|polls| - 1] else polls[..|polls| - 1]
  }

  lemma DropPoll(polls: seq<PollFd>, idxs: seq<int>, m: Interest, fd: nat)
    requires PollOk(polls, idxs, m) && fd < |idxs| && fd in m
    ensures IdxOk(polls, idxs, m, fd) && polls[|polls| - 1].fd < |idxs|
    ensures var idx := idxs[fd]; var idxs' := idxs[fd := -1];
      PollOk(DropSlot(polls, idx), if idx < |polls| - 1 then idxs'[polls[|polls| - 1].fd := idx] else idxs', m - {fd})
  {
    hide ToPoll;
    assert IdxOk(polls, idxs, m, fd);
    var idx: nat, last := idxs[fd], polls[|polls| - 1];
    assert SlotOk(polls, idxs, m, |polls| - 1) && SlotOk(polls, idxs, m, idx);
    var polls' := DropSlot(polls, idx);
    var idxs' := if idx < |polls| - 1 then idxs[fd := -1][last.fd := idx] else idxs[fd := -1];
    forall i: nat | i < |polls'| ensures SlotOk(polls', idxs', m - {fd}, i) { assert SlotOk(polls, idxs, m, i); }
    forall g: nat | g < |idxs'| ensures IdxOk(polls', idxs', m - {fd}, g) { assert IdxOk(polls, idxs, m, g); }
  }

  class PollSet {
    var polls: seq<PollFd>   // polls [0 .. pollcnt)
    var pollidxs: seq<int>
    ghost var interest: Interest

    ghost predicate Valid()
      reads this
    {
      Sane(interest) && PollOk(polls, pollidxs, interest)
    }

    /** poll_init */
    constructor ()
      ensures Valid() && interest == map[] && polls == []
    {
      polls, pollidxs, interest := [], [], map[];
    }

    /** poll_modify */
    method Modify(fd: nat, oev: bv8, nev: bv8)
      requires Valid() && Plain(nev)
      modifies this
      ensures Valid() && interest == Modified(old(interest), fd, oev, nev)
    {
      hide PollOk, Plain, ToPoll, DropSlot;
      SaneModified(interest, fd, oev, nev);
      if oev == nev { return; }
      NeedIdx(fd);
      IdxFor(polls, pollidxs, interest, fd);
      var idx := pollidxs[fd];
      if idx < 0 { // a new pollfd
        AddPoll(polls, pollidxs, interest, fd, nev);
        idx := |polls|;
        pollidxs := pollidxs[fd := idx];
        polls := polls + [PollFd(fd, ToPoll(nev))];
        interest := interest[fd := nev];
      }
      assert polls[idx].fd == fd;
      if nev != 0 {
        ChangePoll(polls, pollidxs, interest, fd, nev);
        polls := polls[idx := PollFd(fd, ToPoll(nev))];
        interest := interest[fd := nev];
      } else {
        DropPoll(polls, pollidxs, interest, fd);
        Drop(fd, idx);
        interest := interest - {fd};
      }
    }

    /** Makes room for `fd` in the inverse index; new places name no entry. */
    method NeedIdx(fd: nat)
      requires PollOk(polls, pollidxs, interest)
      modifies this`pollidxs
      ensures PollOk(polls, pollidxs, interest) && fd < |pollidxs|
    {
      hide PollOk;
      if |pollidxs| <= fd {
        ghost var p := pollidxs;
        pollidxs := pollidxs + seq(fd + 1 - |pollidxs|, _ => -1);
        GrowPoll(polls, p, pollidxs, interest);
      }
    }

    /** The removal in poll_modify. */
    method Drop(fd: nat, idx: int)
      requires fd < |pollidxs| && 0 <= idx < |polls| && polls[|polls| - 1].fd < |pollidxs|
      modifies this`polls, this`pollidxs
      ensures polls == DropSlot(old(polls), idx)
      ensures var idxs := old(pollidxs)[fd := -1];
        pollidxs == if idx < |old(polls)| - 1 then idxs[old(polls)[|old(polls)| - 1].fd := idx] else idxs
    {
      pollidxs := pollidxs[fd := -1];
      var pollcnt := |polls| - 1;
      if idx < pollcnt {
        polls := polls[idx := polls[pollcnt]];
        pollidxs := pollidxs[polls[idx].fd := idx];
      }
      polls := polls[..pollcnt];
    }
  }

  const POLLNVAL: bv16 := 32

  /** What poll_poll does about an entry: fd_kill or fd_event. */
  datatype Reaction = KillFd(fd: nat) | FdEvent(fd: nat, events: bv8)

  function React(fd: nat, revents: bv16): Reaction {
    if revents & POLLNVAL != 0 then KillFd(fd)
    else
      var w := if revents & (POLLOUT | POLLERR | POLLHUP) != 0 then EV_WRITE else 0;
      var r := if revents & (POLLIN | POLLERR | POLLHUP) != 0 then EV_READ else 0;
      FdEvent(fd, w | r)
  }

  /** How many entries the kernel has marked. */
  function Marked(revents: seq<bv16>): nat {
    if revents == [] then 0 else (if revents[0] != 0 then 1 else 0) + Marked(revents[1..])
  }

  /** The reactions to all marked entries, in order. */
  function Reactions(polls: seq<PollFd>, revents: seq<bv16>): seq<Reaction>
    requires |polls| == |revents|
  {
    if polls == [] then []
    else (if revents[0] != 0 then [React(polls[0].fd, revents[0])] else []) + Reactions(polls[1..], revents[1..])
  }

  lemma {:induction false} NothingMarked(polls: seq<PollFd>, revents: seq<bv16>)
    requires |polls| == |revents| && Marked(revents) == 0
    ensures Reactions(polls, revents) == []
  {
    if polls != [] { NothingMarked(polls[1..], revents[1..]); }
  }

  /** The result scan of poll_poll: it stops after the `res` entries that poll has counted, which are all that are
      marked, and before it runs off the array. */
  method PollScan(polls: seq<PollFd>, revents: seq<bv16>, res0: nat) returns (done: seq<Reaction>)
    requires |polls| == |revents| && res0 == Marked(revents)
    ensures done == Reactions(polls, revents)
  {
    hide React;
    done := [];
    var res, p := res0, 0;
    assert polls[0..] == polls && revents[0..] == revents;
    while res != 0
      invariant 0 <= p <= |polls| && res == Marked(revents[p..])
      invariant done + Reactions(polls[p..], revents[p..]) == Reactions(polls, revents)
      decreases |polls| - p
    {
      assert polls[p..][1..] == polls[p + 1..] && revents[p..][1..] == revents[p + 1..];
      ghost var rest := Reactions(polls[p + 1..], revents[p + 1..]);
      if revents[p] != 0 {
        res := res - 1;
        assert done + ([React(polls[p].fd, revents[p])] + rest) == done + [React(polls[p].fd, revents[p])] + rest;
        done := done + [React(polls[p].fd, revents[p])];
      } else {
        assert [] + rest == rest;
      }
      p := p + 1;
    }
    NothingMarked(polls[p..], revents[p..]);
  }

  lemma IdxFor(polls: seq<PollFd>, idxs: seq<int>, m: Interest, fd: nat)
    requires PollOk(polls, idxs, m) && fd < |idxs|
    ensures if fd in m then 0 <= idxs[fd] < |polls| && polls[idxs[fd]].fd == fd else idxs[fd] == -1
  {
    assert IdxOk(polls, idxs, m, fd);
  }

  // ---------- ev_select.c ----------

  /** n: an fd_mask is a long of 32 or of 64 bits. One of 32 bits is the lower half of a `Word`. */
  type Width = n: int | n == 32 || n == 64 witness 64

  type Word = bv64

  const WORD_BITS := 64

  /** Where a descriptor's bit is: in which word, and which bit of it. */
  function WordOf(n: Width, fd: nat): nat { fd / n }

  function BitOf(n: Width, fd: nat): (b: nat)
    ensures b < n
  {
    fd % n
  }

  lemma PlaceOf(n: Width, word: nat, bit: nat)
    requires bit < n
    ensures WordOf(n, n * word + bit) == word && BitOf(n, n * word + bit) == bit
  {
    if n == 32 { assert (32 * word + bit) / 32 == word; } else { assert (64 * word + bit) / 64 == word; }
  }

  lemma WordRange(n: Width, fd: nat)
    ensures n * WordOf(n, fd) <= fd == n * WordOf(n, fd) + BitOf(n, fd) < n * (WordOf(n, fd) + 1)
  {
    if n == 32 {} else {}
  }

  function And(a: Word, b: Word): Word { a & b }

  function Or(a: Word, b: Word): Word { a | b }

  function Not(a: Word): Word { !a }

  function Twice(a: Word): Word { a << 1 }

  function Index(b: nat): bv8
    requires b < WORD_BITS
  {
    b as bv8
  }

  /** The word with bit `b` set and no other. */
  function Bit(b: nat): Word
    requires b < WORD_BITS
  {
    1 << Index(b)
  }

  function Num(c: bv8): int { c as int }

  lemma IndexNum(b: nat)
    requires b < WORD_BITS
    ensures Num(Index(b)) == b
  {
  }

  lemma NumNext(c: bv8)
    requires c < 64
    ensures Num(c + 1) == Num(c) + 1
  {
  }

  lemma NumOne(c: bv8, d: bv8)
    requires Num(c) == Num(d)
    ensures c == d
  {
  }

  lemma IndexSmall(b: nat)
    requires b < WORD_BITS
    ensures Index(b) < 64
  {
  }

  lemma IndexNext(b: nat)
    requires 0 < b < WORD_BITS
    ensures Index(b) == Index(b - 1) + 1 && Index(b - 1) < 63
  {
    hide Index, Num;
    IndexNum(b);
    IndexNum(b - 1);
    IndexSmall(b);
    IndexSmall(b - 1);
    NumNext(Index(b - 1));
    NumOne(Index(b), Index(b - 1) + 1);
  }

  lemma ShiftNext(c: bv8)
    requires c < 63
    ensures (1 as Word) << (c + 1) == Twice(1 << c)
  {
  }

  lemma ShiftNonZero(c: bv8)
    requires c < 64
    ensures (1 as Word) << c != 0
  {
  }

  lemma BitNonZero(b: nat)
    requires b < WORD_BITS
    ensures Bit(b) != 0 && Bit(0) == 1
  {
    IndexSmall(b);
    ShiftNonZero(Index(b));
  }

  lemma BitNext(b: nat)
    requires 0 < b < WORD_BITS
    ensures Bit(b) == Twice(Bit(b - 1))
  {
    hide Index, Twice;
    IndexNext(b);
    ShiftNext(Index(b - 1));
  }

  lemma TwiceApart(x: Word, y: Word)
    ensures And(1, Twice(x)) == 0 && (And(x, y) == 0 ==> And(Twice(x), Twice(y)) == 0)
  {
  }

  lemma AndSwap(x: Word, y: Word)
    ensures And(x, y) == And(y, x) && And(x, x) == x && And(0, x) == 0
  {
  }

  lemma {:induction false} BitsBelow(b: nat, c: nat)
    requires b < c < WORD_BITS
    ensures And(Bit(b), Bit(c)) == 0
  {
    hide Bit, And, Twice;
    BitNext(c);
    if b == 0 {
      BitNonZero(0);
      TwiceApart(Bit(c - 1), 0);
    } else {
      BitNext(b);
      BitsBelow(b - 1, c - 1);
      TwiceApart(Bit(b - 1), Bit(c - 1));
    }
  }

  /** Different bits of a word do not meet. */
  lemma BitsApart(b: nat, c: nat)
    requires b < WORD_BITS && c < WORD_BITS
    ensures And(Bit(b), Bit(c)) == if b == c then Bit(b) else 0
  {
    hide Bit, And;
    AndSwap(Bit(b), Bit(c));
    if b < c { BitsBelow(b, c); } else if c < b { BitsBelow(c, b); }
  }

  lemma OrOther(w: Word, m: Word, k: Word)
    requires And(m, k) == 0
    ensures And(Or(w, m), k) == And(w, k)
  {
  }

  lemma ClearOther(w: Word, m: Word, k: Word)
    requires And(m, k) == 0
    ensures And(And(w, Not(m)), k) == And(w, k)
  {
  }

  lemma OrSelf(w: Word, m: Word)
    ensures And(Or(w, m), m) == m && And(And(w, Not(m)), m) == 0
  {
  }

  predicate HasBit(w: Word, b: nat)
    requires b < WORD_BITS
  {
    And(w, Bit(b)) != 0
  }

  /** A word with one of its bits set, and cleared again if it is not wanted. */
  function PutBit(w: Word, b: nat, on: bool): Word
    requires b < WORD_BITS
  {
    var v := Or(w, Bit(b));
    if on then v else And(v, Not(Bit(b)))
  }

  /** The assignments in select_modify change one bit to what is asked for, and no other. */
  lemma PutBitIs(w: Word, b: nat, on: bool, c: nat)
    requires b < WORD_BITS && c < WORD_BITS
    ensures HasBit(PutBit(w, b, on), c) <==> if b == c then on else HasBit(w, c)
  {
    hide Bit, And, Or, Not;
    BitNonZero(b);
    BitsApart(b, c);
    var v := Or(w, Bit(b));
    if b == c {
      OrSelf(w, Bit(b));
      OrSelf(v, Bit(b));
    } else {
      OrOther(w, Bit(b), Bit(c));
      ClearOther(v, Bit(b), Bit(c));
    }
  }

  /** Whether the bit of `fd` is set in a vector; beyond its end no bit is. */
  predicate Member(n: Width, v: seq<Word>, fd: nat) {
    WordOf(n, fd) < |v| && HasBit(v[WordOf(n, fd)], BitOf(n, fd))
  }

  ghost predicate SelectOk(n: Width, ri: seq<Word>, wi: seq<Word>, m: Interest) {
    |ri| == |wi| && forall fd: nat :: SelectOkAt(n, ri, wi, m, fd)
  }

  ghost predicate SelectOkAt(n: Width, ri: seq<Word>, wi: seq<Word>, m: Interest, fd: nat) {
    (Member(n, ri, fd) <==> Reads(MaskAt(m, fd))) && (Member(n, wi, fd) <==> Writes(MaskAt(m, fd)))
  }

  ghost predicate ZeroGrown(v: seq<Word>, v': seq<Word>) {
    |v| <= |v'| && v'[..|v|] == v && forall k :: |v| <= k < |v'| ==> v'[k] == 0
  }

  lemma GrowMember(n: Width, v: seq<Word>, v': seq<Word>, fd: nat)
    requires ZeroGrown(v, v')
    ensures Member(n, v', fd) <==> Member(n, v, fd)
  {
    hide Bit;
    var k := WordOf(n, fd);
    if k < |v| { assert v'[..|v|][k] == v'[k]; }
  }

  lemma PutMember(n: Width, v: seq<Word>, fd: nat, on: bool, g: nat)
    requires WordOf(n, fd) < |v|
    ensures Member(n, v[WordOf(n, fd) := PutBit(v[WordOf(n, fd)], BitOf(n, fd), on)], g) <==>
      if g == fd then on else Member(n, v, g)
  {
    hide HasBit, PutBit;
    PutBitIs(v[WordOf(n, fd)], BitOf(n, fd), on, BitOf(n, g));
  }

  class SelectSet {
    var vecRi: seq<Word>   // vec_ri [0 .. vec_max), and the same below
    var vecWi: seq<Word>
    const n: Width         // NFDBITS
    ghost var interest: Interest

    ghost predicate Valid()
      reads this
    {
      Sane(interest) && SelectOk(n, vecRi, vecWi, interest)
    }

    /** select_init */
    constructor (n: Width)
      ensures Valid() && interest == map[] && this.n == n
    {
      this.n := n;
      vecRi, vecWi, interest := [], [], map[];
    }

    /** Growing the vectors to `newMax` words. */
    method Grow(newMax: nat)
      requires Valid() && |vecRi| < newMax
      modifies this`vecRi, this`vecWi
      ensures Valid() && |vecRi| == newMax
    {
      hide Member, Reads, Writes, Plain;
      ghost var r, w := vecRi, vecWi;
      while |vecRi| < newMax
        invariant |vecRi| == |vecWi| <= newMax && ZeroGrown(r, vecRi) && ZeroGrown(w, vecWi)
        decreases newMax - |vecRi|
      {
        vecRi, vecWi := vecRi + [0], vecWi + [0];
      }
      forall fd: nat ensures SelectOkAt(n, vecRi, vecWi, interest, fd) {
        assert SelectOkAt(n, r, w, interest, fd);
        GrowMember(n, r, vecRi, fd);
        GrowMember(n, w, vecWi, fd);
      }
    }

    /** select_modify */
    method Modify(fd: nat, oev: bv8, nev: bv8)
      requires Valid() && Plain(nev)
      modifies this
      ensures Valid() && interest == Modified(old(interest), fd, oev, nev)
    {
      hide Member, Plain, Reads, Writes, Bit, WordOf;
      SaneModified(interest, fd, oev, nev);
      if oev == nev { return; }
      var word := WordOf(n, fd);
      if |vecRi| <= word { Grow(word + 1); }
      ModifySelect(n, vecRi, vecWi, interest, fd, oev, nev);
      Assign(word, BitOf(n, fd), nev);
      interest := Modified(interest, fd, oev, nev);
    }

    /** The assignments to the words of vec_ri and vec_wi. */
    method Assign(word: nat, bit: nat, nev: bv8)
      requires word < |vecRi| == |vecWi| && bit < n
      modifies this`vecRi, this`vecWi
      ensures vecRi == old(vecRi)[word := PutBit(old(vecRi)[word], bit, Reads(nev))]
      ensures vecWi == old(vecWi)[word := PutBit(old(vecWi)[word], bit, Writes(nev))]
    {
      hide Bit, And, Or, Not, Reads, Writes;
      var mask := Bit(bit);
      vecRi := vecRi[word := Or(vecRi[word], mask)];
      if !Reads(nev) { vecRi := vecRi[word := And(vecRi[word], Not(mask))]; }
      vecWi := vecWi[word := Or(vecWi[word], mask)];
      if !Writes(nev) { vecWi := vecWi[word := And(vecWi[word], Not(mask))]; }
    }

    /** The scan of the result vectors in select_poll: `ro` and `wo` are what select has left of the two vectors. Every
        descriptor with a bit set is reported, once, with exactly its events, from the highest down. */
    method Scan(ro: seq<Word>, wo: seq<Word>) returns (reports: seq<(nat, bv8)>)
      requires |ro| == |wo|
      ensures Scanned(n, reports, ro, wo, 0)
    {
      hide ReportOf, Scanned, HasBit, Member;
      reports := [];
      ScanStart(n, ro, wo);
      var word := |ro|;
      while word > 0
        invariant 0 <= word <= |ro| && Scanned(n, reports, ro, wo, n * word)
      {
        word := word - 1;
        var wordR, wordW := ro[word], wo[word];
        if wordR != 0 || wordW != 0 {
          reports := ScanWord(ro, wo, word, reports);
        } else {
          ScanNothing(n, reports, ro, wo, word);
        }
      }
    }

    /** The inner loop of the scan. */
    method ScanWord(ro: seq<Word>, wo: seq<Word>, word: nat, reports0: seq<(nat, bv8)>)
        returns (reports: seq<(nat, bv8)>)
      requires word < |ro| == |wo| && Scanned(n, reports0, ro, wo, n * (word + 1))
      ensures Scanned(n, reports, ro, wo, n * word)
    {
      hide ReportOf, Scanned, HasBit, Member;
      reports := reports0;
      var bit: int := n;
      assert n * word + n == n * (word + 1);
      while bit > 0
        invariant 0 <= bit <= n && Scanned(n, reports, ro, wo, n * word + bit)
      {
        bit := bit - 1;
        var events := Report(ro[word], wo[word], bit);
        ReportIs(n, ro, wo, word, bit);
        ScanOne(n, reports, ro, wo, n * word + bit);
        if events != 0 { reports := reports + [(n * word + bit, events)]; }
      }
    }
  }

  /** The events that bit `b` of two result words stands for. */
  function Report(r: Word, w: Word, b: nat): bv8
    requires b < WORD_BITS
  {
    (if HasBit(r, b) then EV_READ else 0) | (if HasBit(w, b) then EV_WRITE else 0)
  }

  /** All descriptors from `low` up with a bit set have been reported, once, from the highest down, with their
      events. */
  ghost predicate Scanned(n: Width, reports: seq<(nat, bv8)>, ro: seq<Word>, wo: seq<Word>, low: nat) {
    && (forall i :: 0 <= i < |reports| ==>
      reports[i].0 >= low && reports[i].1 == ReportOf(n, ro, wo, reports[i].0) != 0)
    && (forall i, j :: 0 <= i < j < |reports| ==> reports[i].0 > reports[j].0)
    && (forall fd: nat :: fd >= low && ReportOf(n, ro, wo, fd) != 0 ==> (fd, ReportOf(n, ro, wo, fd)) in reports)
  }

  lemma ScanStart(n: Width, ro: seq<Word>, wo: seq<Word>)
    requires |ro| == |wo|
    ensures Scanned(n, [], ro, wo, n * |ro|)
  {
    hide HasBit, WordOf;
    forall fd: nat | fd >= n * |ro| ensures ReportOf(n, ro, wo, fd) == 0 { WordBeyond(n, fd, |ro|); }
  }

  lemma WordBeyond(n: Width, fd: nat, k: nat)
    requires fd >= n * k
    ensures WordOf(n, fd) >= k
  {
    if n == 32 { assert fd / 32 >= k; } else { assert fd / 64 >= k; }
  }

  lemma ScanOne(n: Width, reports: seq<(nat, bv8)>, ro: seq<Word>, wo: seq<Word>, fd: nat)
    requires Scanned(n, reports, ro, wo, fd + 1)
    ensures var e := ReportOf(n, ro, wo, fd); Scanned(n, if e != 0 then reports + [(fd, e)] else reports, ro, wo, fd)
  {
    hide ReportOf;
  }

  lemma ReportIs(n: Width, ro: seq<Word>, wo: seq<Word>, word: nat, bit: nat)
    requires word < |ro| == |wo| && bit < n
    ensures ReportOf(n, ro, wo, n * word + bit) == Report(ro[word], wo[word], bit)
  {
    hide HasBit, WordOf, BitOf;
    PlaceOf(n, word, bit);
  }

  lemma {:induction false} ZeroBits(n: Width, ro: seq<Word>, wo: seq<Word>, word: nat, fd: nat)
    requires word < |ro| == |wo| && ro[word] == 0 && wo[word] == 0 && WordOf(n, fd) == word
    ensures ReportOf(n, ro, wo, fd) == 0
  {
    hide Bit, WordOf;
    AndSwap(Bit(BitOf(n, fd)), 0);
  }

  lemma ScanNothing(n: Width, reports: seq<(nat, bv8)>, ro: seq<Word>, wo: seq<Word>, word: nat)
    requires word < |ro| == |wo| && ro[word] == 0 && wo[word] == 0 && Scanned(n, reports, ro, wo, n * (word + 1))
    ensures Scanned(n, reports, ro, wo, n * word)
  {
    hide ReportOf, WordOf;
    forall fd: nat | n * word <= fd < n * (word + 1) ensures ReportOf(n, ro, wo, fd) == 0 {
      WordBeyond(n, fd, word);
      WordRange(n, fd);
      ZeroBits(n, ro, wo, word, fd);
    }
  }

  /** The events of `fd` according to the result vectors. */
  function ReportOf(n: Width, ro: seq<Word>, wo: seq<Word>, fd: nat): bv8 {
    (if Member(n, ro, fd) then EV_READ else 0) | (if Member(n, wo, fd) then EV_WRITE else 0)
  }

  lemma ModifySelect(n: Width, r: seq<Word>, w: seq<Word>, m: Interest, fd: nat, oev: bv8, nev: bv8)
    requires SelectOk(n, r, w, m) && WordOf(n, fd) < |r| && oev != nev
    ensures var k, b := WordOf(n, fd), BitOf(n, fd);
      SelectOk(n, r[k := PutBit(r[k], b, Reads(nev))], w[k := PutBit(w[k], b, Writes(nev))], Modified(m, fd, oev, nev))
  {
    hide Member, PutBit;
    var k, b := WordOf(n, fd), BitOf(n, fd);
    var r', w', m' := r[k := PutBit(r[k], b, Reads(nev))], w[k := PutBit(w[k], b, Writes(nev))],
      Modified(m, fd, oev, nev);
    forall g: nat ensures SelectOkAt(n, r', w', m', g) {
      assert SelectOkAt(n, r, w, m, g);
      PutMember(n, r, fd, Reads(nev), g);
      PutMember(n, w, fd, Writes(nev), g);
    }
  }

  /** What poll and select stand for is the same whenever the same map is: a descriptor is in `polls` with POLLIN iff
      its read bit is set, likewise for writing, and every entry of `polls` has one of the two. */
  lemma SameInterest(polls: seq<PollFd>, idxs: seq<int>, n: Width, ri: seq<Word>, wi: seq<Word>, m: Interest, fd: nat)
    requires Sane(m) && PollOk(polls, idxs, m) && SelectOk(n, ri, wi, m)
    ensures Member(n, ri, fd) <==> exists i: nat :: i < |polls| && polls[i].fd == fd && polls[i].events & POLLIN != 0
    ensures Member(n, wi, fd) <==> exists i: nat :: i < |polls| && polls[i].fd == fd && polls[i].events & POLLOUT != 0
    ensures (exists i: nat :: i < |polls| && polls[i].fd == fd) <==> Member(n, ri, fd) || Member(n, wi, fd)
  {
    hide Member, ToPoll, Plain, Reads, Writes;
    assert SelectOkAt(n, ri, wi, m, fd);
    if fd in m {
      assert IdxOk(polls, idxs, m, fd);
      var k: nat := idxs[fd];
      assert SlotOk(polls, idxs, m, k);
      MaskBits(m[fd]);
      forall i: nat | i < |polls| && polls[i].fd == fd ensures i == k { assert SlotOk(polls, idxs, m, i); }
    } else {
      NoBits();
      forall i: nat | i < |polls| ensures polls[i].fd != fd { assert SlotOk(polls, idxs, m, i); }
    }
  }

  lemma MaskBits(m: bv8)
    ensures (ToPoll(m) & POLLIN != 0 <==> Reads(m)) && (ToPoll(m) & POLLOUT != 0 <==> Writes(m))
    ensures m != 0 && Plain(m) ==> Reads(m) || Writes(m)
  {
  }

  lemma NoBits()
    ensures !Reads(0) && !Writes(0)
  {
  }

  /** Any sequence of modifications leaves both back ends standing for one map. */
  method RunBoth(n: Width, script: seq<(nat, bv8, bv8)>) returns (p: PollSet, s: SelectSet)
    requires forall i :: 0 <= i < |script| ==> Plain(script[i].2)
    ensures fresh(p) && fresh(s) && p.Valid() && s.Valid() && p.interest == s.interest == RunModified(script)
  {
    hide PollSet.Valid, SelectSet.Valid, Plain, Modified;
    p := new PollSet();
    s := new SelectSet(n);
    for i := 0 to |script|
      invariant fresh(p) && fresh(s) && p.Valid() && s.Valid() && p.interest == s.interest == RunModified(script[..i])
    {
      var (fd, oev, nev) := script[i];
      p.Modify(fd, oev, nev);
      s.Modify(fd, oev, nev);
      assert script[..i + 1][..i] == script[..i];
    }
    assert script[..|script|] == script;
  }

  function RunModified(script: seq<(nat, bv8, bv8)>): Interest {
    if script == [] then map[]
    else
      var (fd, oev, nev) := script[|script| - 1];
      Modified(RunModified(script[..|script| - 1]), fd, oev, nev)
  }
}
