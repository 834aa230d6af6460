/**
 fs/ext2/inode.c, directories: blocks tiled by records of varying length, and adding, finding and removing names in
 them, as operations on a map from names to links, which are inode numbers with a file type.
 */
module Ext2Dir {
  import opened Folding
  import opened Options
  import opened Words

  type Name = seq<byte>

  /** One record: the inode number is 0 for a record whose name was removed at the head of a block. */
  datatype Entry = Entry(ino: word, recLen: nat, name: Name, ftype: byte)

  /** What a name stands for. */
  datatype Link = Link(ino: word, ftype: byte)

  function LinkOf(e: Entry): Link {
    Link(e.ino, e.ftype)
  }

  type Dict = map<Name, Link>

  /** `EXT2_DIR_REC_LEN`: header and name, rounded up to a multiple of four. */
  function Need(nameLen: nat): (r: nat)
    ensures 8 + nameLen <= r < 8 + nameLen + 4 && r % 4 == 0
  {
    (8 + nameLen + 3) / 4 * 4
  }

  // ---- Records in a block ----

  function InoAt(block: seq<byte>, off: nat): word
    requires off + 8 <= |block|
  {
    Decode(block[off], block[off + 1], block[off + 2], block[off + 3])
  }

  function RecLenAt(block: seq<byte>, off: nat): nat
    requires off + 8 <= |block|
  {
    (block[off + 4] as nat) + 0x100 * (block[off + 5] as nat)
  }

  function NameAt(block: seq<byte>, off: nat): Name
    requires off + 8 <= |block| && off + 8 + block[off + 6] <= |block|
  {
    block[off + 8..off + 8 + block[off + 6]]
  }

  /** The bytes at `off` are record `e`, which ends within the block. */
  ghost predicate EntryAt(block: seq<byte>, off: nat, e: Entry) {
    && Fits(e) && off + e.recLen <= |block|
    && forall u :: Look(block, u) ==> Reads(block, off, e)
  }

  /** A record is long enough for its name, and its length is a multiple of four. */
  predicate Fits(e: Entry) {
    Need(|e.name|) <= e.recLen < 0x1_0000 && e.recLen % 4 == 0 && |e.name| < 0x100
  }

  ghost predicate Reads(block: seq<byte>, off: nat, e: Entry) {
    && off + 8 + |e.name| <= |block|
    && InoAt(block, off) == e.ino && RecLenAt(block, off) == e.recLen
    && block[off + 6] == |e.name| && block[off + 7] == e.ftype && NameAt(block, off) == e.name
  }

  lemma EntryReads(block: seq<byte>, off: nat, e: Entry)
    requires EntryAt(block, off, e)
    ensures Reads(block, off, e)
  {
    assert Look(block, 0);
  }

  /** Records `es` tile the bytes from `off` to `end`. */
  ghost predicate Tiles(block: seq<byte>, off: nat, es: seq<Entry>, end: nat)
    decreases |es|
  {
    if es == [] then off == end
    else EntryAt(block, off, es[0]) && off + es[0].recLen <= end && Tiles(block, off + es[0].recLen, es[1..], end)
  }

  ghost function Length(es: seq<Entry>): nat {
    if es == [] then 0 else es[0].recLen + Length(es[1..])
  }

  lemma {:induction false} TilesLength(block: seq<byte>, off: nat, es: seq<Entry>, end: nat)
    requires Tiles(block, off, es, end)
    ensures end == off + Length(es) && (es != [] ==> off < end <= |block|)
    decreases |es|
  {
    if es != [] {
      TilesLength(block, off + es[0].recLen, es[1..], end);
    }
  }

  lemma {:induction false} TilesSplit(block: seq<byte>, off: nat, p: seq<Entry>, s: seq<Entry>, end: nat)
    ensures Tiles(block, off, p + s, end)
       <==> off + Length(p) <= end && Tiles(block, off, p, off + Length(p)) && Tiles(block, off + Length(p), s, end)
    decreases |p|
  {
    if p == [] {
      assert p + s == s;
      if Tiles(block, off, s, end) {
        TilesLength(block, off, s, end);
      }
    } else {
      var next := off + p[0].recLen;
      assert (p + s)[0] == p[0] && (p + s)[1..] == p[1..] + s;
      TilesSplit(block, next, p[1..], s, end);
      assert off + Length(p) == next + Length(p[1..]);
    }
  }

  /** Tiling depends on the bytes it covers only. */
  lemma {:induction false} TilesFrame(block: seq<byte>, block': seq<byte>, off: nat, es: seq<Entry>, end: nat)
    requires Tiles(block, off, es, end) && |block'| == |block|
    requires forall i :: off <= i < end && i < |block| ==> block'[i] == block[i]
    ensures Tiles(block', off, es, end)
    decreases |es|
  {
    if es != [] {
      TilesLength(block, off, es, end);
      TilesFrame(block, block', off + es[0].recLen, es[1..], end);
      EntryFrame(block, block', off, es[0]);
    }
  }

  lemma EntryFrame(block: seq<byte>, block': seq<byte>, off: nat, e: Entry)
    requires EntryAt(block, off, e) && |block'| == |block|
    requires forall i :: off <= i < off + e.recLen ==> block'[i] == block[i]
    ensures EntryAt(block', off, e)
  {
    EntryReads(block, off, e);
    assert block'[off + 8..off + 8 + |e.name|] == block[off + 8..off + 8 + |e.name|];
    assert Reads(block', off, e);
  }

  // ---- The names in a block ----

  ghost function Names(es: seq<Entry>): Dict {
    if es == [] then map[]
    else if es[0].ino == 0 then Names(es[1..]) else Names(es[1..])[es[0].name := LinkOf(es[0])]
  }

  ghost predicate Unique(es: seq<Entry>) {
    es != [] ==> Unique(es[1..]) && (es[0].ino != 0 ==> es[0].name !in Names(es[1..]))
  }

  lemma {:induction false} NamesConcat(p: seq<Entry>, s: seq<Entry>)
    ensures Names(p + s) == Names(s) + Names(p)
    ensures Unique(p + s) <==> Unique(p) && Unique(s) && Names(p).Keys !! Names(s).Keys
  {
    if p == [] {
      assert p + s == s;
    } else {
      assert (p + s)[1..] == p[1..] + s;
      NamesConcat(p[1..], s);
    }
  }

  lemma {:induction false} NamesAt(es: seq<Entry>, k: nat)
    requires k < |es| && Unique(es) && es[k].ino != 0
    ensures es[k].name in Names(es) && Names(es)[es[k].name] == LinkOf(es[k])
  {
    if k > 0 {
      NamesAt(es[1..], k - 1);
    }
  }

  lemma {:induction false} NamesAbsent(es: seq<Entry>, name: Name)
    requires forall i :: 0 <= i < |es| ==> es[i].ino == 0 || es[i].name != name
    ensures name !in Names(es)
  {
    if es != [] {
      NamesAbsent(es[1..], name);
    }
  }

  lemma OneName(e: Entry)
    ensures Names([e]) == (if e.ino == 0 then map[] else map[e.name := LinkOf(e)]) && Unique([e])
  {
    assert [e][1..] == [];
  }

  lemma TwoNames(e: Entry, n: Entry)
    requires n.ino != 0 && (e.ino != 0 ==> e.name != n.name)
    ensures Names([e, n]) == Names([e])[n.name := LinkOf(n)] && Unique([e, n])
  {
    assert [e, n] == [e] + [n];
    OneName(e);
    OneName(n);
    NamesConcat([e], [n]);
  }

  lemma NamesThree(p: seq<Entry>, m: seq<Entry>, s: seq<Entry>)
    ensures Names(p + m + s) == Names(s) + (Names(m) + Names(p))
    ensures Unique(p + m + s) <==> Unique(p) && Unique(m) && Unique(s) && Apart3(Names(p), Names(m), Names(s))
  {
    NamesConcat(p + m, s);
    NamesConcat(p, m);
    assert Names(p + m).Keys == Names(p).Keys + Names(m).Keys;
  }

  ghost predicate Apart3(a: Dict, b: Dict, c: Dict) {
    a.Keys !! b.Keys && a.Keys !! c.Keys && b.Keys !! c.Keys
  }

  lemma JoinInsert(a: Dict, b: Dict, c: Dict, name: Name, link: Link)
    requires Apart3(a, b, c) && name !in c + (b + a)
    ensures Apart3(a, b[name := link], c) && c + (b[name := link] + a) == (c + (b + a))[name := link]
  {
    assert name !in a && name !in b && name !in c;
  }

  lemma JoinRemove(a: Dict, c: Dict, name: Name, link: Link)
    requires Apart3(a, map[name := link], c)
    ensures Apart3(a, map[], c) && a.Keys !! c.Keys
    ensures c + (map[] + a) == c + (map[name := link] + a) - {name} && c + a == c + (map[name := link] + a) - {name}
  {
    assert name !in a && name !in c;
  }

  /** A record gains a neighbour with a new name. */
  lemma NamesInsert(p: seq<Entry>, e: Entry, e': Entry, n: Entry, s: seq<Entry>)
    requires Unique(p + [e] + s) && LinkOf(e') == LinkOf(e) && e'.name == e.name
    requires n.ino != 0 && n.name !in Names(p + [e] + s)
    ensures Unique(p + [e', n] + s) && Names(p + [e', n] + s) == Names(p + [e] + s)[n.name := LinkOf(n)]
  {
    NamesThree(p, [e], s);
    OneName(e);
    OneName(e');
    JoinInsert(Names(p), Names([e]), Names(s), n.name, LinkOf(n));
    TwoNames(e', n);
    NamesThree(p, [e', n], s);
  }

  /** A record's name goes: the record itself with it, or only its inode number. */
  lemma NamesRemove(p: seq<Entry>, e: Entry, s: seq<Entry>)
    requires Unique(p + [e] + s) && e.ino != 0
    ensures Unique(p + s) && Names(p + s) == Names(p + [e] + s) - {e.name}
    ensures Unique(p + [e.(ino := 0)] + s) && Names(p + [e.(ino := 0)] + s) == Names(p + [e] + s) - {e.name}
  {
    NamesThree(p, [e], s);
    OneName(e);
    OneName(e.(ino := 0));
    JoinRemove(Names(p), Names(s), e.name, LinkOf(e));
    NamesThree(p, [e.(ino := 0)], s);
    NamesConcat(p, s);
  }

  lemma NamesSame(p: seq<Entry>, e: Entry, e': Entry, s: seq<Entry>)
    requires Unique(p + [e] + s) && LinkOf(e') == LinkOf(e) && e'.name == e.name
    ensures Unique(p + [e'] + s) && Names(p + [e'] + s) == Names(p + [e] + s)
  {
    NamesThree(p, [e], s);
    NamesThree(p, [e'], s);
    OneName(e);
    OneName(e');
  }

  // ---- Writing records ----

  function PutEntry(block: seq<byte>, off: nat, e: Entry): (r: seq<byte>)
    requires off + 8 + |e.name| <= |block| && |e.name| < 0x100 && e.recLen < 0x1_0000
    ensures |r| == |block|
  {
    block[..off] + Encode(e.ino) + [e.recLen % 0x100, e.recLen / 0x100, |e.name|, e.ftype] + e.name
    + block[off + 8 + |e.name|..]
  }

  function SetRecLen(block: seq<byte>, off: nat, recLen: nat): (r: seq<byte>)
    requires off + 8 <= |block| && recLen < 0x1_0000
    ensures |r| == |block|
  {
    block[off + 4 := recLen % 0x100][off + 5 := recLen / 0x100]
  }

  function ClearIno(block: seq<byte>, off: nat): (r: seq<byte>)
    requires off + 8 <= |block|
    ensures |r| == |block|
  {
    block[..off] + [0, 0, 0, 0] + block[off + 4..]
  }

  /** Where the fields of a record are, byte by byte. */
  lemma PutEntryBytes(block: seq<byte>, off: nat, e: Entry)
    requires off + 8 + |e.name| <= |block| && |e.name| < 0x100 && e.recLen < 0x1_0000
    ensures var r := PutEntry(block, off, e);
            && r[off] as nat + 0x100 * r[off + 1] as nat + 0x1_0000 * r[off + 2] as nat + 0x100_0000 * r[off + 3] as nat
               == e.ino as nat
            && r[off + 4] as nat + 0x100 * r[off + 5] as nat == e.recLen && r[off + 6] as nat == |e.name|
            && r[off + 7] == e.ftype
            && (forall i :: 0 <= i < |e.name| ==> r[off + 8 + i] == e.name[i])
            && forall i :: 0 <= i < off || off + 8 + |e.name| <= i < |block| ==> r[i] == block[i]
  {
    var r, enc := PutEntry(block, off, e), Encode(e.ino);
    assert r[off] == enc[0] && r[off + 1] == enc[1] && r[off + 2] == enc[2] && r[off + 3] == enc[3];
  }

  lemma PutEntryReads(block: seq<byte>, off: nat, e: Entry)
    requires Fits(e) && off + e.recLen <= |block|
    ensures EntryAt(PutEntry(block, off, e), off, e)
    ensures forall i :: 0 <= i < off || off + e.recLen <= i < |block| ==> PutEntry(block, off, e)[i] == block[i]
  {
    var r := PutEntry(block, off, e);
    var enc := Encode(e.ino);
    assert r[off] == enc[0] && r[off + 1] == enc[1] && r[off + 2] == enc[2] && r[off + 3] == enc[3];
    assert r[off + 4] == e.recLen % 0x100 && r[off + 5] == e.recLen / 0x100;
    assert r[off + 8..off + 8 + |e.name|] == e.name;
    assert Reads(r, off, e);
  }

  lemma SetRecLenReads(block: seq<byte>, off: nat, e: Entry, recLen: nat)
    requires EntryAt(block, off, e) && Fits(e.(recLen := recLen)) && off + recLen <= |block|
    ensures EntryAt(SetRecLen(block, off, recLen), off, e.(recLen := recLen))
    ensures forall i :: 0 <= i < off || off + 8 <= i < |block| ==> SetRecLen(block, off, recLen)[i] == block[i]
  {
    EntryReads(block, off, e);
    var r := SetRecLen(block, off, recLen);
    assert r[off + 8..off + 8 + |e.name|] == block[off + 8..off + 8 + |e.name|];
    assert Reads(r, off, e.(recLen := recLen));
  }

  lemma ClearInoElsewhere(block: seq<byte>, off: nat)
    requires off + 8 <= |block|
    ensures var r := ClearIno(block, off);
            && r[off] == 0 && r[off + 1] == 0 && r[off + 2] == 0 && r[off + 3] == 0
            && forall i :: 0 <= i < off || off + 4 <= i < |block| ==> r[i] == block[i]
  {
  }

  /** A record that keeps all but its inode number. */
  lemma ReadsButIno(block: seq<byte>, r: seq<byte>, off: nat, e: Entry)
    requires EntryAt(block, off, e) && |r| == |block|
    requires forall i :: off + 4 <= i < |block| ==> r[i] == block[i]
    ensures EntryAt(r, off, e.(ino := InoAt(r, off)))
  {
    EntryReads(block, off, e);
    assert r[off + 8..off + 8 + |e.name|] == block[off + 8..off + 8 + |e.name|];
    assert Reads(r, off, e.(ino := InoAt(r, off)));
  }

  lemma ClearInoReads(block: seq<byte>, off: nat, e: Entry)
    requires EntryAt(block, off, e)
    ensures EntryAt(ClearIno(block, off), off, e.(ino := 0))
  {
    ClearInoElsewhere(block, off);
    ReadsButIno(block, ClearIno(block, off), off, e);
  }

  // ---- Whole blocks ----

  lemma {:induction false} LengthConcat(p: seq<Entry>, s: seq<Entry>)
    ensures Length(p + s) == Length(p) + Length(s)
  {
    if p == [] {
      assert p + s == s;
    } else {
      assert (p + s)[1..] == p[1..] + s;
      LengthConcat(p[1..], s);
    }
  }

  lemma TilesOne(block: seq<byte>, off: nat, e: Entry, end: nat)
    ensures Tiles(block, off, [e], end) <==> EntryAt(block, off, e) && off + e.recLen == end
    ensures Length([e]) == e.recLen
  {
    assert [e][1..] == [];
  }

  /** `Tiles`, kept folded. */
  ghost predicate Tiled(block: seq<byte>, off: nat, es: seq<Entry>, end: nat) {
    forall u :: Look(es, u) ==> Tiles(block, off, es, end)
  }

  lemma TiledSplit(block: seq<byte>, off: nat, p: seq<Entry>, s: seq<Entry>, end: nat)
    requires Tiled(block, off, p + s, end)
    ensures Tiled(block, off, p, off + Length(p)) && Tiled(block, off + Length(p), s, end) && off + Length(p) <= end
  {
    assert Look(p + s, 0);
    TilesSplit(block, off, p, s, end);
  }

  lemma TiledJoin(block: seq<byte>, off: nat, p: seq<Entry>, mid: nat, s: seq<Entry>, end: nat)
    requires Tiled(block, off, p, mid) && Tiled(block, mid, s, end)
    ensures Tiled(block, off, p + s, end) && mid == off + Length(p)
  {
    assert Look(p, 0) && Look(s, 0);
    TilesLength(block, off, p, mid);
    TilesLength(block, mid, s, end);
    TilesSplit(block, off, p, s, end);
  }

  lemma TiledOne(block: seq<byte>, off: nat, e: Entry, end: nat)
    ensures Tiled(block, off, [e], end) <==> EntryAt(block, off, e) && off + e.recLen == end
    ensures Length([e]) == e.recLen
  {
    assert Look([e], 0);
    TilesOne(block, off, e, end);
  }

  lemma TiledFrame(block: seq<byte>, block': seq<byte>, off: nat, es: seq<Entry>, end: nat)
    requires Tiled(block, off, es, end) && |block'| == |block|
    requires forall i :: off <= i < end && i < |block| ==> block'[i] == block[i]
    ensures Tiled(block', off, es, end)
  {
    assert Look(es, 0);
    TilesFrame(block, block', off, es, end);
  }

  /** One record of a tiled block, and what lies before and after it. */
  lemma TiledAround(block: seq<byte>, p: seq<Entry>, e: Entry, s: seq<Entry>)
    requires Tiled(block, 0, p + ([e] + s), |block|)
    ensures Tiled(block, 0, p, Length(p)) && EntryAt(block, Length(p), e)
    ensures Tiled(block, Length(p) + e.recLen, s, |block|)
  {
    TiledSplit(block, 0, p, [e] + s, |block|);
    TiledSplit(block, Length(p), [e], s, |block|);
    TiledOne(block, Length(p), e, Length(p) + e.recLen);
  }

  /** A changed stretch between tiles that stay. */
  lemma TiledReplaced(block: seq<byte>, r: seq<byte>, p: seq<Entry>, m: seq<Entry>, s: seq<Entry>, off: nat, end: nat)
    requires Tiled(block, 0, p, off) && Tiled(r, off, m, end) && Tiled(block, end, s, |block|) && |r| == |block|
    requires forall i :: 0 <= i < off || end <= i < |block| ==> i < |block| ==> r[i] == block[i]
    ensures Tiled(r, 0, p + (m + s), |block|)
  {
    TiledFrame(block, r, 0, p, off);
    TiledFrame(block, r, end, s, |block|);
    TiledJoin(r, off, m, end, s, |block|);
    TiledJoin(r, 0, p, off, m + s, |block|);
  }

  lemma TiledTwo(block: seq<byte>, off: nat, e: Entry, n: Entry)
    requires EntryAt(block, off, e) && EntryAt(block, off + e.recLen, n)
    ensures Tiled(block, off, [e, n], off + e.recLen + n.recLen)
  {
    TiledOne(block, off, e, off + e.recLen);
    TiledOne(block, off + e.recLen, n, off + e.recLen + n.recLen);
    TiledJoin(block, off, [e], off + e.recLen, [n], off + e.recLen + n.recLen);
    assert [e] + [n] == [e, n];
  }

  /** The block after the record at `off`, which needs `actual` bytes, gave its slack to a new one. */
  function Inserted(block: seq<byte>, off: nat, actual: nat, n: Entry): (r: seq<byte>)
    requires off + 8 <= |block| && actual < 0x1_0000 && |n.name| < 0x100 && n.recLen < 0x1_0000
    requires off + actual + 8 + |n.name| <= |block|
    ensures |r| == |block|
  {
    PutEntry(SetRecLen(block, off, actual), off + actual, n)
  }

  lemma InsertedReads(block: seq<byte>, off: nat, e: Entry, n: Entry)
    requires EntryAt(block, off, e) && Fits(n) && e.recLen == Need(|e.name|) + n.recLen
    ensures var actual := Need(|e.name|);
            var r := Inserted(block, off, actual, n);
            && EntryAt(r, off, e.(recLen := actual)) && EntryAt(r, off + actual, n)
            && forall i :: 0 <= i < off || off + e.recLen <= i < |block| ==> r[i] == block[i]
  {
    var actual := Need(|e.name|);
    SetRecLenReads(block, off, e, actual);
    PutBehind(SetRecLen(block, off, actual), off, e.(recLen := actual), n);
  }

  lemma PutBehind(b: seq<byte>, off: nat, e: Entry, n: Entry)
    requires EntryAt(b, off, e) && Fits(n) && off + e.recLen + n.recLen <= |b|
    ensures var r := PutEntry(b, off + e.recLen, n);
            && EntryAt(r, off, e) && EntryAt(r, off + e.recLen, n)
            && forall i :: 0 <= i < off + e.recLen || off + e.recLen + n.recLen <= i < |b| ==> r[i] == b[i]
  {
    PutEntryReads(b, off + e.recLen, n);
    EntryFrame(b, PutEntry(b, off + e.recLen, n), off, e);
  }

  lemma InsertedTiles(block: seq<byte>, p: seq<Entry>, e: Entry, s: seq<Entry>, n: Entry)
    requires Tiled(block, 0, p + ([e] + s), |block|) && Fits(n) && e.recLen == Need(|e.name|) + n.recLen
    ensures EntryAt(block, Length(p), e)
    ensures Tiled(Inserted(block, Length(p), Need(|e.name|), n), 0, p + ([e.(recLen := Need(|e.name|)), n] + s),
                  |block|)
  {
    var off, actual := Length(p), Need(|e.name|);
    TiledAround(block, p, e, s);
    InsertedReads(block, off, e, n);
    var r := Inserted(block, off, actual, n);
    TiledTwo(r, off, e.(recLen := actual), n);
    TiledReplaced(block, r, p, [e.(recLen := actual), n], s, off, off + e.recLen);
  }

  lemma SumFits(d: Entry, e: Entry, off: nat, size: nat)
    requires Fits(d) && Fits(e) && off + d.recLen + e.recLen <= size < 0x1_0000
    ensures Fits(d.(recLen := d.recLen + e.recLen))
  {
  }

  /** Removing record `e` by giving its room to the record `d` before it. */
  lemma {:induction false} SwallowedTiles(block: seq<byte>, p: seq<Entry>, d: Entry, e: Entry, s: seq<Entry>)
    requires Tiled(block, 0, p + ([d] + ([e] + s)), |block|) && |block| < 0x1_0000
    ensures EntryAt(block, Length(p), d) && EntryAt(block, Length(p) + d.recLen, e)
    ensures Fits(d.(recLen := d.recLen + e.recLen))
    ensures Tiled(SetRecLen(block, Length(p), d.recLen + e.recLen), 0, p + ([d.(recLen := d.recLen + e.recLen)] + s),
                  |block|)
  {
    var off, big := Length(p), d.recLen + e.recLen;
    TiledAround(block, p, d, [e] + s);
    TiledSplit(block, off + d.recLen, [e], s, |block|);
    TiledOne(block, off + d.recLen, e, off + big);
    SumFits(d, e, off, |block|);
    SetRecLenReads(block, off, d, big);
    var r := SetRecLen(block, off, big);
    TiledOne(r, off, d.(recLen := big), off + big);
    TiledReplaced(block, r, p, [d.(recLen := big)], s, off, off + big);
  }

  lemma ClearedTiles(block: seq<byte>, e: Entry, s: seq<Entry>)
    requires Tiled(block, 0, [] + ([e] + s), |block|)
    ensures EntryAt(block, 0, e)
    ensures Tiled(ClearIno(block, 0), 0, [] + ([e.(ino := 0)] + s), |block|)
  {
    var none: seq<Entry> := [];
    TiledAround(block, none, e, s);
    ClearInoReads(block, 0, e);
    ClearInoElsewhere(block, 0);
    var r := ClearIno(block, 0);
    TiledOne(r, 0, e.(ino := 0), e.recLen);
    TiledReplaced(block, r, none, [e.(ino := 0)], s, 0, e.recLen);
  }

  ghost predicate BlockOk(block: seq<byte>, es: seq<Entry>) {
    Tiled(block, 0, es, |block|) && Unique(es) && 0 < |block| < 0x1_0000
  }

  /** A block whose records other than `e` stay as they are. */
  lemma CutAt(es: seq<Entry>, k: nat)
    requires k < |es|
    ensures es == es[..k] + ([es[k]] + es[k + 1..])
    ensures es == es[..k] + [es[k]] + es[k + 1..]
    ensures k > 0
            ==> es == es[..k - 1] + ([es[k - 1]] + ([es[k]] + es[k + 1..])) && es[..k] == es[..k - 1] + [es[k - 1]]
  {
  }

  lemma InsertAround(block: seq<byte>, p: seq<Entry>, e: Entry, s: seq<Entry>, n: Entry)
    requires BlockOk(block, p + ([e] + s)) && Fits(n) && n.ino != 0 && n.name !in Names(p + ([e] + s))
    requires e.recLen == Need(|e.name|) + n.recLen
    ensures EntryAt(block, Length(p), e)
    ensures var es' := p + ([e.(recLen := Need(|e.name|)), n] + s);
            && BlockOk(Inserted(block, Length(p), Need(|e.name|), n), es')
            && Names(es') == Names(p + ([e] + s))[n.name := LinkOf(n)]
  {
    var e' := e.(recLen := Need(|e.name|));
    InsertedTiles(block, p, e, s, n);
    assert p + [e] + s == p + ([e] + s) && p + [e', n] + s == p + ([e', n] + s);
    NamesInsert(p, e, e', n, s);
  }

  lemma BlockInsert(block: seq<byte>, es: seq<Entry>, k: nat, n: Entry)
    requires BlockOk(block, es) && k < |es| && Fits(n) && n.ino != 0 && n.name !in Names(es)
    requires es[k].recLen == Need(|es[k].name|) + n.recLen
    ensures EntryAt(block, Length(es[..k]), es[k])
    ensures var es' := es[..k] + ([es[k].(recLen := Need(|es[k].name|)), n] + es[k + 1..]);
            BlockOk(Inserted(block, Length(es[..k]), Need(|es[k].name|), n), es')
              && Names(es') == Names(es)[n.name := LinkOf(n)]
  {
    CutAt(es, k);
    InsertAround(block, es[..k], es[k], es[k + 1..], n);
  }

  lemma BlockSwallow(block: seq<byte>, es: seq<Entry>, k: nat)
    requires BlockOk(block, es) && 0 < k < |es| && es[k].ino != 0
    ensures EntryAt(block, Length(es[..k - 1]), es[k - 1]) && es[k - 1].recLen + es[k].recLen < 0x1_0000
    ensures var big := es[k - 1].recLen + es[k].recLen;
            var es' := es[..k - 1] + ([es[k - 1].(recLen := big)] + es[k + 1..]);
            BlockOk(SetRecLen(block, Length(es[..k - 1]), big), es') && Names(es') == Names(es) - {es[k].name}
  {
    var p, d, e, s := es[..k - 1], es[k - 1], es[k], es[k + 1..];
    CutAt(es, k);
    SwallowedTiles(block, p, d, e, s);
    NamesRemove(p + [d], e, s);
    assert es[..k] + [e] + s == es && p + [d] + s == es[..k] + s;
    var d' := d.(recLen := d.recLen + e.recLen);
    NamesSame(p, d, d', s);
    assert p + [d'] + s == p + ([d'] + s);
  }

  lemma BlockClear(block: seq<byte>, es: seq<Entry>)
    requires BlockOk(block, es) && es != [] && es[0].ino != 0
    ensures EntryAt(block, 0, es[0])
    ensures var es' := [es[0].(ino := 0)] + es[1..];
            BlockOk(ClearIno(block, 0), es') && Names(es') == Names(es) - {es[0].name}
  {
    var e, s := es[0], es[1..];
    var none: seq<Entry> := [];
    assert es == [] + ([e] + s);
    ClearedTiles(block, e, s);
    NamesRemove(none, e, s);
    assert none + [e] + s == es;
    assert none + [e.(ino := 0)] + s == [] + ([e.(ino := 0)] + s) == [e.(ino := 0)] + s;
  }

  lemma BlockFresh(block: seq<byte>, n: Entry)
    requires Fits(n) && n.ino != 0 && n.recLen == |block|
    ensures BlockOk(PutEntry(block, 0, n), [n]) && Names([n]) == map[n.name := LinkOf(n)]
  {
    PutEntryReads(block, 0, n);
    TiledOne(PutEntry(block, 0, n), 0, n, |block|);
    OneName(n);
  }

  // ---- Walking the records ----

  lemma WalkStep(block: seq<byte>, es: seq<Entry>, k: nat, off: nat)
    requires k <= |es| && Tiled(block, off, es[k..], |block|) && off < |block|
    ensures k < |es| && Fits(es[k]) && Reads(block, off, es[k]) && off + es[k].recLen <= |block|
    ensures Tiled(block, off + es[k].recLen, es[k + 1..], |block|)
  {
    assert Look(es[k..], 0);
    assert k < |es| ==> es[k..][0] == es[k] && es[k..][1..] == es[k + 1..];
    EntryReads(block, off, es[k]);
  }

  lemma WalkLength(es: seq<Entry>, k: nat)
    requires k < |es|
    ensures Length(es[..k + 1]) == Length(es[..k]) + es[k].recLen
  {
    assert es[..k + 1] == es[..k] + [es[k]];
    LengthConcat(es[..k], [es[k]]);
    assert [es[k]][1..] == [];
  }

  /** The record that holds a name, with the one before it: the walk of `ext2_lookup` and of `ext2_remove_entry`. */
  method Search(block: seq<byte>, name: Name, ghost es: seq<Entry>)
    returns (found: bool, off: nat, prev: Option<nat>, ghost k: nat)
    requires BlockOk(block, es)
    ensures found <==> name in Names(es)
    ensures found
            ==> k < |es| && es[k].ino != 0 && es[k].name == name && off == Length(es[..k]) && Reads(block, off, es[k])
    ensures found ==> Names(es)[name] == LinkOf(es[k])
    ensures found ==> prev == if k == 0 then None else Some(Length(es[..k - 1]))
  {
    off, prev, k := 0, None, 0;
    assert es[0..] == es;
    while off < |block|
      invariant k <= |es| && off == Length(es[..k]) && off <= |block| && Tiled(block, off, es[k..], |block|)
      invariant prev == if k == 0 then None else Some(Length(es[..k - 1]))
      invariant forall i :: 0 <= i < k ==> es[i].ino == 0 || es[i].name != name
      decreases |block| - off
    {
      WalkStep(block, es, k, off);
      if InoAt(block, off) != 0 && block[off + 6] == |name| && NameAt(block, off) == name {
        NamesAt(es, k);
        return true, off, prev, k;
      }
      WalkLength(es, k);
      prev := Some(off);
      off := off + RecLenAt(block, off);
      k := k + 1;
    }
    WalkEnd(block, es, k, off);
    NamesAbsent(es, name);
    found := false;
  }

  lemma WalkEnd(block: seq<byte>, es: seq<Entry>, k: nat, off: nat)
    requires k <= |es| && Tiled(block, off, es[k..], |block|) && off == |block|
    ensures k == |es|
  {
    assert Look(es[k..], 0);
    TilesLength(block, off, es[k..], |block|);
  }

  ghost predicate NoRoom(es: seq<Entry>, need: nat) {
    forall i :: 0 <= i < |es| ==> es[i].recLen - Need(|es[i].name|) < need
  }

  /** The first record with enough slack: the walk of `ext2_add_entry`. */
  method FindSlack(block: seq<byte>, need: nat, ghost es: seq<Entry>) returns (found: bool, off: nat, ghost k: nat)
    requires BlockOk(block, es)
    ensures found
            ==> k < |es| && off == Length(es[..k]) && Reads(block, off, es[k])
                && es[k].recLen - Need(|es[k].name|) >= need
    ensures !found ==> NoRoom(es, need)
  {
    off, k := 0, 0;
    assert es[0..] == es;
    while off < |block|
      invariant k <= |es| && off == Length(es[..k]) && off <= |block| && Tiled(block, off, es[k..], |block|)
      invariant forall i :: 0 <= i < k ==> es[i].recLen - Need(|es[i].name|) < need
      decreases |block| - off
    {
      WalkStep(block, es, k, off);
      if RecLenAt(block, off) - Need(block[off + 6]) >= need {
        return true, off, k;
      }
      WalkLength(es, k);
      off := off + RecLenAt(block, off);
      k := k + 1;
    }
    WalkEnd(block, es, k, off);
    found := false;
  }

  // ---- Several blocks ----

  ghost function With(m: Dict, name: Name, link: Link): Dict {
    m[name := link]
  }

  ghost predicate Disjoint(ms: seq<Dict>) {
    forall i, j :: 0 <= i < j < |ms| ==> ms[i].Keys !! ms[j].Keys
  }

  ghost function Union(ms: seq<Dict>): Dict {
    if ms == [] then map[] else ms[0] + Union(ms[1..])
  }

  lemma {:induction false} UnionHas(ms: seq<Dict>, b: nat, name: Name)
    requires Disjoint(ms) && b < |ms| && name in ms[b]
    ensures name in Union(ms) && Union(ms)[name] == ms[b][name]
  {
    if b == 0 {
      if name in Union(ms[1..]) {
        var c := UnionFinds(ms[1..], name);
      }
    } else {
      UnionHas(ms[1..], b - 1, name);
    }
  }

  lemma {:induction false} UnionFinds(ms: seq<Dict>, name: Name) returns (b: nat)
    requires name in Union(ms)
    ensures b < |ms| && name in ms[b]
  {
    if name in ms[0] {
      b := 0;
    } else {
      var c := UnionFinds(ms[1..], name);
      b := c + 1;
    }
  }

  /** A new name in one block is a new name in the directory. */
  lemma UnionAdd(ms: seq<Dict>, b: nat, name: Name, link: Link)
    requires Disjoint(ms) && b < |ms| && name !in Union(ms)
    ensures Disjoint(ms[b := With(ms[b], name, link)])
    ensures Union(ms[b := With(ms[b], name, link)]) == Union(ms)[name := link]
  {
    var ms' := ms[b := With(ms[b], name, link)];
    forall c | 0 <= c < |ms|
      ensures name !in ms[c]
    {
      if name in ms[c] {
        UnionHas(ms, c, name);
      }
    }
    UnionSame(ms, ms', b, name);
    UnionHas(ms', b, name);
  }

  lemma UnionDrop(ms: seq<Dict>, b: nat, name: Name)
    requires Disjoint(ms) && b < |ms| && name in ms[b]
    ensures Disjoint(ms[b := ms[b] - {name}])
    ensures Union(ms[b := ms[b] - {name}]) == Union(ms) - {name}
  {
    var ms' := ms[b := ms[b] - {name}];
    UnionSame(ms, ms', b, name);
    if name in Union(ms') {
      var c := UnionFinds(ms', name);
    }
  }

  /** What one block's change of one name leaves alone. */
  lemma UnionSame(ms: seq<Dict>, ms': seq<Dict>, b: nat, name: Name)
    requires Disjoint(ms) && Disjoint(ms') && |ms'| == |ms| && b < |ms| && ms' == ms[b := ms'[b]]
    requires forall x :: x != name ==> (x in ms'[b] <==> x in ms[b]) && (x in ms[b] ==> ms'[b][x] == ms[b][x])
    ensures forall x :: x != name
              ==> (x in Union(ms') <==> x in Union(ms)) && (x in Union(ms) ==> Union(ms')[x] == Union(ms)[x])
  {
    forall x | x != name && (x in Union(ms') || x in Union(ms))
      ensures x in Union(ms') && x in Union(ms) && Union(ms')[x] == Union(ms)[x]
    {
      var c: nat;
      if x in Union(ms) {
        c := UnionFinds(ms, x);
      } else {
        c := UnionFinds(ms', x);
      }
      UnionHas(ms, c, x);
      UnionHas(ms', c, x);
    }
  }

  lemma {:induction false} UnionAppend(ms: seq<Dict>, m: Dict)
    ensures Union(ms + [m]) == Union(ms) + m || Union(ms).Keys * m.Keys != {}
  {
    if ms == [] {
      assert ms + [m] == [m] && [m][1..] == [];
    } else {
      assert (ms + [m])[1..] == ms[1..] + [m];
      UnionAppend(ms[1..], m);
    }
  }

  lemma UnionNew(ms: seq<Dict>, name: Name, link: Link)
    requires Disjoint(ms) && name !in Union(ms)
    ensures Disjoint(ms + [map[name := link]]) && Union(ms + [map[name := link]]) == Union(ms)[name := link]
  {
    forall c | 0 <= c < |ms|
      ensures name !in ms[c]
    {
      if name in ms[c] {
        UnionHas(ms, c, name);
      }
    }
    UnionAppend(ms, map[name := link]);
  }

  /** The slack of a record makes a record. */
  lemma RecordFits(block: seq<byte>, es: seq<Entry>, k: nat, n: Entry)
    requires BlockOk(block, es) && k < |es| && |n.name| < 0x100
    requires n.recLen == es[k].recLen - Need(|es[k].name|) && n.recLen >= Need(|n.name|)
    ensures Fits(n)
  {
    CutAt(es, k);
    TiledAround(block, es[..k], es[k], es[k + 1..]);
  }

  lemma UnionOne(m: Dict)
    ensures Union([m]) == m
  {
    assert [m][1..] == [];
  }

  ghost function Dicts(entries: seq<seq<Entry>>): (ms: seq<Dict>)
    ensures |ms| == |entries| && forall b :: 0 <= b < |ms| ==> ms[b] == Names(entries[b])
  {
    seq(|entries|, b requires 0 <= b < |entries| => Names(entries[b]))
  }

  const DOT: Name := [46]
  const DOTDOT: Name := [46, 46]

  /** `ext2_init_dir_block` */
  function DirBlock(bs: nat, self: word, parent: word, dir: byte): seq<byte>
    requires bs in {1024, 2048, 4096}
  {
    Inserted(PutEntry(Zeros(bs), 0, Entry(self, bs, DOT, dir)), 0, 12, Entry(parent, bs - 12, DOTDOT, dir))
  }

  lemma DirBlockOk(bs: nat, self: word, parent: word, dir: byte)
    requires bs in {1024, 2048, 4096} && self != 0 && parent != 0
    ensures var es := [Entry(self, 12, DOT, dir), Entry(parent, bs - 12, DOTDOT, dir)];
            |DirBlock(bs, self, parent, dir)| == bs && BlockOk(DirBlock(bs, self, parent, dir), es)
            && Names(es) == map[DOT := Link(self, dir), DOTDOT := Link(parent, dir)]
  {
    var dot, dotdot := Entry(self, bs, DOT, dir), Entry(parent, bs - 12, DOTDOT, dir);
    assert |DOT| == 1 && |DOTDOT| == 2 && Need(1) == 12;
    FreshPair(Zeros(bs), dot, dotdot);
  }

  lemma FreshPair(block: seq<byte>, e: Entry, n: Entry)
    requires Fits(e) && e.ino != 0 && e.recLen == |block| == Need(|e.name|) + n.recLen
    requires Fits(n) && n.ino != 0 && |n.name| != |e.name|
    ensures var block' := Inserted(PutEntry(block, 0, e), 0, Need(|e.name|), n);
            var es := [e.(recLen := Need(|e.name|)), n];
            && |block'| == |block| && BlockOk(block', es) && Names(es) == map[e.name := LinkOf(e), n.name := LinkOf(n)]
  {
    BlockFresh(block, e);
    InsertBehind(PutEntry(block, 0, e), e, n);
  }

  lemma InsertBehind(block: seq<byte>, e: Entry, n: Entry)
    requires BlockOk(block, [e]) && Fits(n) && n.ino != 0 && n.name !in Names([e])
    requires e.recLen == Need(|e.name|) + n.recLen
    ensures EntryAt(block, 0, e)
    ensures var es := [e.(recLen := Need(|e.name|)), n];
            && BlockOk(Inserted(block, 0, Need(|e.name|), n), es) && Names(es) == Names([e])[n.name := LinkOf(n)]
  {
    var none: seq<Entry> := [];
    assert none + ([e] + none) == [e] && Length(none) == 0;
    InsertAround(block, none, e, none, n);
    assert none + ([e.(recLen := Need(|e.name|)), n] + none) == [e.(recLen := Need(|e.name|)), n];
  }

  // ---- A directory, whatever its blocks are stored in ----

  ghost predicate DirOk(blocks: seq<seq<byte>>, entries: seq<seq<Entry>>, bs: nat) {
    && |entries| == |blocks| && Disjoint(Dicts(entries))
    && forall b :: 0 <= b < |blocks| ==> |blocks[b]| == bs && BlockOk(blocks[b], entries[b])
  }

  /** What the directory says: the inode number and the type of each name. */
  ghost function Mapping(entries: seq<seq<Entry>>): Dict {
    Union(Dicts(entries))
  }

  lemma DirAdd(blocks: seq<seq<byte>>, entries: seq<seq<Entry>>, bs: nat, b: nat, block: seq<byte>, es: seq<Entry>,
               name: Name, link: Link)
    requires DirOk(blocks, entries, bs) && b < |blocks| && name !in Mapping(entries)
    requires |block| == bs && BlockOk(block, es) && Names(es) == Names(entries[b])[name := link]
    ensures DirOk(blocks[b := block], entries[b := es], bs)
            && Mapping(entries[b := es]) == Mapping(entries)[name := link]
  {
    UnionAdd(Dicts(entries), b, name, link);
    assert Dicts(entries[b := es]) == Dicts(entries)[b := With(Names(entries[b]), name, link)];
  }

  lemma DirDrop(blocks: seq<seq<byte>>, entries: seq<seq<Entry>>, bs: nat, b: nat, block: seq<byte>, es: seq<Entry>,
                name: Name)
    requires DirOk(blocks, entries, bs) && b < |blocks| && name in Names(entries[b])
    requires |block| == bs && BlockOk(block, es) && Names(es) == Names(entries[b]) - {name}
    ensures DirOk(blocks[b := block], entries[b := es], bs) && Mapping(entries[b := es]) == Mapping(entries) - {name}
  {
    UnionDrop(Dicts(entries), b, name);
    assert Dicts(entries[b := es]) == Dicts(entries)[b := Names(entries[b]) - {name}];
  }

  lemma DirAppend(blocks: seq<seq<byte>>, entries: seq<seq<Entry>>, bs: nat, n: Entry)
    requires DirOk(blocks, entries, bs) && n.name !in Mapping(entries) && Fits(n) && n.ino != 0 && n.recLen == bs
    ensures var block := PutEntry(Zeros(bs), 0, n);
            && |block| == bs && DirOk(blocks + [block], entries + [[n]], bs)
            && Mapping(entries + [[n]]) == Mapping(entries)[n.name := LinkOf(n)]
  {
    BlockFresh(Zeros(bs), n);
    UnionNew(Dicts(entries), n.name, LinkOf(n));
    assert Dicts(entries + [[n]]) == Dicts(entries) + [map[n.name := LinkOf(n)]];
  }

  lemma MappingHas(entries: seq<seq<Entry>>, b: nat, name: Name)
    requires Disjoint(Dicts(entries)) && b < |entries| && name in Names(entries[b])
    ensures name in Mapping(entries) && Mapping(entries)[name] == Names(entries[b])[name]
  {
    UnionHas(Dicts(entries), b, name);
  }

  lemma MappingLacks(entries: seq<seq<Entry>>, name: Name)
    requires forall b :: 0 <= b < |entries| ==> name !in Names(entries[b])
    ensures name !in Mapping(entries)
  {
    if name in Mapping(entries) {
      var b := UnionFinds(Dicts(entries), name);
    }
  }

  /** The changes `ext2_add_entry` makes to a block with room behind record `k`, which starts at `off`. */
  method InsertInto(block: seq<byte>, off: nat, name: Name, ino: word, ftype: byte, ghost es: seq<Entry>, ghost k: nat)
    returns (block': seq<byte>, ghost es': seq<Entry>)
    requires BlockOk(block, es) && name !in Names(es) && ino != 0 && |name| < 0x100
    requires k < |es| && off == Length(es[..k]) && Reads(block, off, es[k])
    requires es[k].recLen - Need(|es[k].name|) >= Need(|name|)
    ensures |block'| == |block| && BlockOk(block', es') && Names(es') == Names(es)[name := Link(ino, ftype)]
  {
    var actual := Need(block[off + 6]);
    var n := Entry(ino, RecLenAt(block, off) - actual, name, ftype);
    RecordFits(block, es, k, n);
    BlockInsert(block, es, k, n);
    es' := es[..k] + ([es[k].(recLen := actual), n] + es[k + 1..]);
    block' := Inserted(block, off, actual, n);
  }

  /** The changes `ext2_remove_entry` makes: the record before takes the room over, or the inode number is cleared. */
  method EraseFrom(block: seq<byte>, off: nat, prev: Option<nat>, ghost es: seq<Entry>, ghost k: nat)
    returns (block': seq<byte>, ghost es': seq<Entry>)
    requires BlockOk(block, es) && k < |es| && es[k].ino != 0
    requires off == Length(es[..k]) && Reads(block, off, es[k])
    requires prev == if k == 0 then None else Some(Length(es[..k - 1]))
    ensures |block'| == |block| && BlockOk(block', es') && Names(es') == Names(es) - {es[k].name}
  {
    if prev.Some? {
      BlockSwallow(block, es, k);
      EntryReads(block, prev.value, es[k - 1]);
      var big := RecLenAt(block, prev.value) + RecLenAt(block, off);
      es' := es[..k - 1] + ([es[k - 1].(recLen := big)] + es[k + 1..]);
      block' := SetRecLen(block, prev.value, big);
    } else {
      BlockClear(block, es);
      es' := [es[0].(ino := 0)] + es[1..];
      block' := ClearIno(block, off);
    }
  }
}
