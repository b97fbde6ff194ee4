/**
 * The Obsync delta engine (obnamlib/obsync.py): the signature of a
 * reference file as one (weak, strong) checksum pair per fixed-size block,
 * the weak -> strong -> block-number lookup table built from it, and the
 * sliding-window delta that turns a new file into "copy block" and
 * "literal byte" instructions.
 *
 * Files are byte sequences; a read of n bytes at a cursor returns the next
 * min(n, remaining) bytes. The checksum functions (zlib's Adler-32 and
 * hashlib's MD5) are parameters: nothing here depends on how they compute.
 */
module Obsync {
  import opened Outcomes

  type Bytes = seq<bv8>

  /** The weak and strong checksum functions, each rendered as the string
      under which the lookup table files a block. */
  datatype Hashes = Hashes(weak: Bytes -> string, strong: Bytes -> string)

  /** One Checksums component: the weak and strong checksum of one block. */
  datatype Checksums = Checksums(weak: string, strong: string)

  /** An RsyncSig object: which file version, the block size, and the
      checksums of its blocks in file order (list position = block number). */
  datatype RsyncSig = RsyncSig(objectId: string, blockSize: nat, checksums: seq<Checksums>)

  /** The delta output: a one-byte FileChunk, or a reference to a substring
      of the old file. */
  datatype Instruction =
    | FileChunk(data: bv8)
    | OldFileSubString(offset: nat, length: nat)

  /** block_signature: the checksum pair of one block. */
  function BlockSignature(h: Hashes, block: Bytes): Checksums
  {
    Checksums(h.weak(block), h.strong(block))
  }

  /** What f.read(n) returns with the file cursor at pos. */
  function Read(f: Bytes, pos: nat, n: nat): Bytes
    requires pos <= |f|
  {
    f[pos..Min(pos + n, |f|)]
  }

  /** Block i of f under block size bs: bytes [i*bs, min((i+1)*bs, |f|)),
      clamped to the end of the file. */
  function BlockAt(f: Bytes, bs: nat, i: nat): Bytes
  {
    f[Min(i * bs, |f|)..Min(i * bs + bs, |f|)]
  }

  // ---------------------------------------------------------------------
  // file_signature and make_signature
  // ---------------------------------------------------------------------

  /** The list the read loop of file_signature appends to, from cursor pos on. */
  function SignatureFrom(h: Hashes, f: Bytes, bs: nat, pos: nat): seq<Checksums>
    requires pos <= |f|
    decreases |f| - pos
  {
    var block := Read(f, pos, bs);
    if block == [] then [] else [BlockSignature(h, block)] + SignatureFrom(h, f, bs, pos + |block|)
  }

  /** The signature of a whole file. */
  function Signature(h: Hashes, f: Bytes, bs: nat): seq<Checksums>
  {
    SignatureFrom(h, f, bs, 0)
  }

  /** file_signature: read blocks until a read comes back empty, appending
      the checksum pair of each. */
  method FileSignature(h: Hashes, f: Bytes, blockSize: nat) returns (sigs: seq<Checksums>)
    ensures sigs == Signature(h, f, blockSize)
  {
    sigs := [];
    var pos := 0;
    while true
      invariant pos <= |f|
      invariant sigs + SignatureFrom(h, f, blockSize, pos) == Signature(h, f, blockSize)
      decreases |f| - pos
    {
      var block := Read(f, pos, blockSize);
      pos := pos + |block|;
      if block == [] {
        break;
      }
      sigs := sigs + [BlockSignature(h, block)];
    }
  }

  /** make_signature: wrap the block checksums of f into an RsyncSig. */
  method MakeSignature(h: Hashes, objectId: string, f: Bytes, blockSize: nat) returns (sig: RsyncSig)
    ensures sig.objectId == objectId && sig.blockSize == blockSize
    ensures sig.checksums == Signature(h, f, blockSize)
  {
    var checksums := FileSignature(h, f, blockSize);
    sig := RsyncSig(objectId, blockSize, checksums);
  }

  lemma MulStep(k: nat, bs: nat)
    ensures (k + 1) * bs == k * bs + bs
  {
  }

  lemma {:induction false} SignatureFromLength(h: Hashes, f: Bytes, bs: nat, p: nat)
    requires bs >= 1 && p <= |f|
    ensures var k := |SignatureFrom(h, f, bs, p)|;
      && (k == 0 <==> p == |f|)
      && (k > 0 ==> p + (k - 1) * bs < |f| <= p + k * bs)
    decreases |f| - p
  {
    if p < |f| {
      var q := p + |Read(f, p, bs)|;
      SignatureFromLength(h, f, bs, q);
      var k := |SignatureFrom(h, f, bs, q)|;
      assert |SignatureFrom(h, f, bs, p)| == k + 1;
      if q < |f| {
        assert q == p + bs;
        MulStep(k - 1, bs);
        MulStep(k, bs);
      } else {
        assert k == 0 && q <= p + bs;
      }
    }
  }

  lemma {:induction false} SignatureFromAt(h: Hashes, f: Bytes, bs: nat, p: nat, i: nat)
    requires bs >= 1 && p <= |f|
    requires i < |SignatureFrom(h, f, bs, p)|
    ensures p + i * bs < |f|
    ensures SignatureFrom(h, f, bs, p)[i] == BlockSignature(h, f[p + i * bs..Min(p + i * bs + bs, |f|)])
    decreases i
  {
    var q := p + |Read(f, p, bs)|;
    if i > 0 {
      SignatureFromAt(h, f, bs, q, i - 1);
      assert q == p + bs;
      assert p + i * bs == q + (i - 1) * bs;
    }
  }

  /** file_signature returns ceil(|f| / bs) pairs, and pair i is the checksum
      pair of block i. */
  lemma SignatureShape(h: Hashes, f: Bytes, bs: nat)
    requires bs >= 1
    ensures var k := |Signature(h, f, bs)|;
      && (k == 0 <==> |f| == 0)
      && (k > 0 ==> (k - 1) * bs < |f| <= k * bs)
    ensures forall i :: 0 <= i < |Signature(h, f, bs)| ==>
      && i * bs < |f|
      && Signature(h, f, bs)[i] == BlockSignature(h, BlockAt(f, bs, i))
  {
    SignatureFromLength(h, f, bs, 0);
    forall i | 0 <= i < |Signature(h, f, bs)|
      ensures i * bs < |f|
      ensures Signature(h, f, bs)[i] == BlockSignature(h, BlockAt(f, bs, i))
    {
      SignatureFromAt(h, f, bs, 0, i);
    }
  }

  /** With block size 0 every read is empty, so the signature is empty. */
  lemma SignatureOfZeroBlockSize(h: Hashes, f: Bytes)
    ensures Signature(h, f, 0) == []
  {
  }

  // ---------------------------------------------------------------------
  // RsyncLookupTable
  // ---------------------------------------------------------------------

  /** weak checksum -> strong checksum -> block number. */
  type Table = map<string, map<string, nat>>

  /** The table the constructor of RsyncLookupTable fills from a checksum
      list: each pair is filed under its block number, later blocks
      overwriting earlier ones with the same pair. */
  function Catalogue(cs: seq<Checksums>): Table
    decreases |cs|
  {
    if cs == [] then map[]
    else
      var t := Catalogue(cs[..|cs| - 1]);
      var c := cs[|cs| - 1];
      var sub := if c.weak in t then t[c.weak] else map[];
      t[c.weak := sub[c.strong := |cs| - 1]]
  }

  /** __getitem__ on the table, given the window's two checksums. */
  function Probe(t: Table, weak: string, strong: string): Option<nat>
  {
    if weak in t && t[weak] != map[] then
      if strong in t[weak] then Some(t[weak][strong]) else None
    else None
  }

  /** The lookup answers a block number exactly when the pair is in the
      checksum list, and then the LAST block carrying that pair. */
  lemma {:induction false} CatalogueLookup(cs: seq<Checksums>, weak: string, strong: string)
    ensures Probe(Catalogue(cs), weak, strong).Some? <==>
      exists m :: 0 <= m < |cs| && cs[m] == Checksums(weak, strong)
    ensures Probe(Catalogue(cs), weak, strong).Some? ==>
      var n := Probe(Catalogue(cs), weak, strong).value;
      && n < |cs|
      && cs[n] == Checksums(weak, strong)
      && forall m :: n < m < |cs| ==> cs[m] != Checksums(weak, strong)
    decreases |cs|
  {
    if cs != [] {
      var init := cs[..|cs| - 1];
      CatalogueLookup(init, weak, strong);
      var c := cs[|cs| - 1];
      var t := Catalogue(init);
      var sub := if c.weak in t then t[c.weak] else map[];
      assert Catalogue(cs) == t[c.weak := sub[c.strong := |cs| - 1]];
      if c == Checksums(weak, strong) {
        assert Probe(Catalogue(cs), weak, strong) == Some(|cs| - 1);
      } else {
        assert Probe(Catalogue(cs), weak, strong) == Probe(t, weak, strong);
        forall m | 0 <= m < |init| ensures init[m] == cs[m] { }
        if exists m :: 0 <= m < |cs| && cs[m] == Checksums(weak, strong) {
          var m :| 0 <= m < |cs| && cs[m] == Checksums(weak, strong);
          assert init[m] == Checksums(weak, strong);
        }
      }
    }
  }

  /** RsyncLookupTable: the table of a signature, with the two checksum
      functions it applies to a window. */
  class RsyncLookupTable {
    const computeWeak: Bytes -> string
    const computeStrong: Bytes -> string
    var dict: Table

    constructor (computeWeak: Bytes -> string, computeStrong: Bytes -> string, checksums: seq<Checksums>)
      ensures this.computeWeak == computeWeak && this.computeStrong == computeStrong
      ensures dict == Catalogue(checksums)
    {
      this.computeWeak := computeWeak;
      this.computeStrong := computeStrong;
      var d: Table := map[];
      var blockNumber: nat := 0;
      while blockNumber < |checksums|
        invariant blockNumber <= |checksums|
        invariant d == Catalogue(checksums[..blockNumber])
      {
        var c := checksums[blockNumber];
        if c.weak !in d {
          d := d[c.weak := map[]];
        }
        var sub: map<string, nat> := d[c.weak];
        d := d[c.weak := sub[c.strong := blockNumber]];
        assert checksums[..blockNumber + 1][..blockNumber] == checksums[..blockNumber];
        blockNumber := blockNumber + 1;
      }
      assert checksums[..|checksums|] == checksums;
      dict := d;
    }

    /** __getitem__: the block number filed under the window's weak and
        strong checksums, or None. */
    function Get(blockData: Bytes): (r: Option<nat>)
      reads this
      ensures r.Some? <==>
        computeWeak(blockData) in dict && computeStrong(blockData) in dict[computeWeak(blockData)]
      ensures r.Some? ==> r.value == dict[computeWeak(blockData)][computeStrong(blockData)]
    {
      var weak := computeWeak(blockData);
      if weak in dict && dict[weak] != map[] then
        var strong := computeStrong(blockData);
        if strong in dict[weak] then Some(dict[weak][strong]) else None
      else None
    }
  }

  // ---------------------------------------------------------------------
  // file_delta
  // ---------------------------------------------------------------------

  /** One iteration of the delta loop: a miss emits the window's first byte,
      a hit records the block number and the window it matched. */
  datatype Step = Miss(byte: bv8) | Hit(blockNumber: nat, window: Bytes)

  /** The iterations of the delta loop whose window starts at offset start
      of the new file. The window is always the read of bs bytes at start:
      a miss slides it by one byte, a hit reads a fresh one after it. */
  function Steps(h: Hashes, t: Table, bs: nat, f: Bytes, start: nat): seq<Step>
    requires start <= |f|
    decreases |f| - start
  {
    var w := Read(f, start, bs);
    if w == [] then []
    else
      match Probe(t, h.weak(w), h.strong(w))
      case None => [Miss(w[0])] + Steps(h, t, bs, f, start + 1)
      case Some(n) => [Hit(n, w)] + Steps(h, t, bs, f, start + |w|)
  }

  /** The instruction an iteration appends: a hit on block n refers to
      bs bytes at offset n*bs of the old file. */
  function Emit(s: Step, bs: nat): Instruction
  {
    match s
    case Miss(b) => FileChunk(b)
    case Hit(n, _) => OldFileSubString(n * bs, bs)
  }

  function Instructions(steps: seq<Step>, bs: nat): seq<Instruction>
  {
    if steps == [] then [] else [Emit(steps[0], bs)] + Instructions(steps[1..], bs)
  }

  /** The delta of a new file against a signature. */
  function Delta(h: Hashes, sig: RsyncSig, f: Bytes): seq<Instruction>
  {
    Instructions(Steps(h, Catalogue(sig.checksums), sig.blockSize, f, 0), sig.blockSize)
  }

  /** On a miss the window loses its first byte and gains the next byte of
      the file, if there is one: the result is the window one byte on. */
  lemma SlideWindow(f: Bytes, bs: nat, start: nat)
    requires start < |f| && bs >= 1
    ensures var pos := Min(start + bs, |f|);
      && Read(f, start, bs)[1..] + Read(f, pos, 1) == Read(f, start + 1, bs)
      && pos + |Read(f, pos, 1)| == Min(start + 1 + bs, |f|)
  {
    var pos := Min(start + bs, |f|);
    assert Read(f, start, bs)[1..] == f[start + 1..pos];
    assert f[start + 1..pos] + f[pos..Min(pos + 1, |f|)] == f[start + 1..Min(pos + 1, |f|)];
  }

  /** A miss emits the window's first byte and moves on by one byte. */
  lemma MissStep(h: Hashes, t: Table, bs: nat, f: Bytes, start: nat)
    requires start <= |f| && Read(f, start, bs) != []
    requires Probe(t, h.weak(Read(f, start, bs)), h.strong(Read(f, start, bs))).None?
    ensures start + 1 <= |f|
    ensures Instructions(Steps(h, t, bs, f, start), bs)
            == [FileChunk(Read(f, start, bs)[0])] + Instructions(Steps(h, t, bs, f, start + 1), bs)
  {
    var steps := Steps(h, t, bs, f, start);
    assert steps[1..] == Steps(h, t, bs, f, start + 1);
  }

  /** A hit on block n emits a reference to it and moves past the window. */
  lemma HitStep(h: Hashes, t: Table, bs: nat, f: Bytes, start: nat)
    requires start <= |f| && Read(f, start, bs) != []
    requires Probe(t, h.weak(Read(f, start, bs)), h.strong(Read(f, start, bs))).Some?
    ensures start + |Read(f, start, bs)| <= |f|
    ensures Instructions(Steps(h, t, bs, f, start), bs)
            == [OldFileSubString(Probe(t, h.weak(Read(f, start, bs)), h.strong(Read(f, start, bs))).value * bs, bs)]
               + Instructions(Steps(h, t, bs, f, start + |Read(f, start, bs)|), bs)
  {
    var steps := Steps(h, t, bs, f, start);
    assert steps[1..] == Steps(h, t, bs, f, start + |Read(f, start, bs)|);
  }

  /** The loop invariant of file_delta survives a miss. */
  lemma MissKeepsDelta(h: Hashes, t: Table, bs: nat, f: Bytes, start: nat, out: seq<Instruction>, target: seq<Instruction>)
    requires start <= |f| && Read(f, start, bs) != []
    requires Probe(t, h.weak(Read(f, start, bs)), h.strong(Read(f, start, bs))).None?
    requires out + Instructions(Steps(h, t, bs, f, start), bs) == target
    ensures start + 1 <= |f|
    ensures (out + [FileChunk(Read(f, start, bs)[0])]) + Instructions(Steps(h, t, bs, f, start + 1), bs) == target
  {
    MissStep(h, t, bs, f, start);
    var rest := Instructions(Steps(h, t, bs, f, start + 1), bs);
    assert (out + [FileChunk(Read(f, start, bs)[0])]) + rest == out + ([FileChunk(Read(f, start, bs)[0])] + rest);
  }

  /** The loop invariant of file_delta survives a hit on block n. */
  lemma HitKeepsDelta(h: Hashes, t: Table, bs: nat, f: Bytes, start: nat, n: nat, out: seq<Instruction>, target: seq<Instruction>)
    requires start <= |f| && Read(f, start, bs) != []
    requires Probe(t, h.weak(Read(f, start, bs)), h.strong(Read(f, start, bs))) == Some(n)
    requires out + Instructions(Steps(h, t, bs, f, start), bs) == target
    ensures Min(start + bs, |f|) <= |f|
    ensures (out + [OldFileSubString(n * bs, bs)]) + Instructions(Steps(h, t, bs, f, Min(start + bs, |f|)), bs) == target
  {
    HitStep(h, t, bs, f, start);
    var rest := Instructions(Steps(h, t, bs, f, Min(start + bs, |f|)), bs);
    assert start + |Read(f, start, bs)| == Min(start + bs, |f|);
    assert (out + [OldFileSubString(n * bs, bs)]) + rest == out + ([OldFileSubString(n * bs, bs)] + rest);
  }

  /** new_file.read(n) with the cursor at pos: the bytes read and the new
      cursor. */
  method ReadAt(f: Bytes, pos: nat, n: nat) returns (data: Bytes, nextPos: nat)
    requires pos <= |f|
    ensures data == Read(f, pos, n) && nextPos == Min(pos + n, |f|) && nextPos == pos + |data|
  {
    nextPos := Min(pos + n, |f|);
    data := f[pos..nextPos];
  }

  /** The miss branch's window update: drop the first byte, read one more
      and append it if the file had one. */
  method SlideByOne(f: Bytes, bs: nat, ghost start: nat, window: Bytes, pos: nat) returns (next: Bytes, nextPos: nat)
    requires bs >= 1 && start < |f|
    requires window == Read(f, start, bs) && pos == Min(start + bs, |f|)
    ensures next == Read(f, start + 1, bs) && nextPos == Min(start + 1 + bs, |f|)
  {
    SlideWindow(f, bs, start);
    next := window[1..];
    var byte;
    byte, nextPos := ReadAt(f, pos, 1);
    if byte != [] {
      next := next + byte;
    }
  }

  /** file_delta: slide a window over the new file, copying catalogued
      blocks and emitting every other byte as a literal. */
  method FileDelta(h: Hashes, rsyncsig: RsyncSig, newFile: Bytes) returns (output: seq<Instruction>)
    ensures output == Delta(h, rsyncsig, newFile)
  {
    var blockSize := rsyncsig.blockSize;
    var lookupTable := new RsyncLookupTable(h.weak, h.strong, rsyncsig.checksums);
    ghost var t := lookupTable.dict;
    ghost var target := Instructions(Steps(h, t, blockSize, newFile, 0), blockSize);
    output := [];
    var blockData, pos := ReadAt(newFile, 0, blockSize);
    ghost var start := 0;
    while blockData != []
      invariant start <= pos <= |newFile|
      invariant pos == Min(start + blockSize, |newFile|)
      invariant blockData == Read(newFile, start, blockSize)
      invariant output + Instructions(Steps(h, t, blockSize, newFile, start), blockSize) == target
      invariant lookupTable.dict == t
      invariant lookupTable.computeWeak == h.weak && lookupTable.computeStrong == h.strong
      decreases |newFile| - start
    {
      var blockNumber := lookupTable.Get(blockData);
      assert blockNumber == Probe(t, h.weak(blockData), h.strong(blockData));
      if blockNumber.None? {
        MissKeepsDelta(h, t, blockSize, newFile, start, output, target);
        output := output + [FileChunk(blockData[0])];
        blockData, pos := SlideByOne(newFile, blockSize, start, blockData, pos);
        start := start + 1;
      } else {
        HitKeepsDelta(h, t, blockSize, newFile, start, blockNumber.value, output, target);
        var offset := blockNumber.value * blockSize;
        output := output + [OldFileSubString(offset, blockSize)];
        start := pos;
        blockData, pos := ReadAt(newFile, pos, blockSize);
      }
    }
  }

  // ---------------------------------------------------------------------
  // Properties of the delta
  // ---------------------------------------------------------------------

  /** The new-file bytes an iteration stands for. */
  function StepText(s: Step): Bytes
  {
    match s
    case Miss(b) => [b]
    case Hit(_, w) => w
  }

  function Text(steps: seq<Step>): Bytes
  {
    if steps == [] then [] else StepText(steps[0]) + Text(steps[1..])
  }

  /** Literals and matched windows tile the new file, in order: no byte is
      skipped or consumed twice. This needs no assumption on the checksums. */
  lemma {:induction false} StepsTile(h: Hashes, t: Table, bs: nat, f: Bytes, start: nat)
    requires bs >= 1 && start <= |f|
    ensures Text(Steps(h, t, bs, f, start)) == f[start..]
    decreases |f| - start
  {
    if start < |f| {
      var next := NextStart(h, t, bs, f, start);
      TextStep(h, t, bs, f, start);
      StepsTile(h, t, bs, f, next);
      SliceSplit(f, start, next);
    }
  }

  lemma SliceSplit(f: Bytes, a: nat, b: nat)
    requires a <= b <= |f|
    ensures f[a..] == f[a..b] + f[b..]
  {
  }

  /** Where the iteration after the one at start begins: one byte further
      on a miss, a whole window further on a hit. */
  function NextStart(h: Hashes, t: Table, bs: nat, f: Bytes, start: nat): nat
    requires start < |f|
  {
    var w := Read(f, start, bs);
    if Probe(t, h.weak(w), h.strong(w)).None? then start + 1 else start + |w|
  }

  lemma TextStep(h: Hashes, t: Table, bs: nat, f: Bytes, start: nat)
    requires bs >= 1 && start < |f|
    ensures start < NextStart(h, t, bs, f, start) <= |f|
    ensures Text(Steps(h, t, bs, f, start)) ==
      f[start..NextStart(h, t, bs, f, start)] + Text(Steps(h, t, bs, f, NextStart(h, t, bs, f, start)))
  {
    var w := Read(f, start, bs);
    if Probe(t, h.weak(w), h.strong(w)).None? {
      MissText(h, t, bs, f, start);
      assert f[start..start + 1] == [f[start]];
    } else {
      HitText(h, t, bs, f, start);
    }
  }

  lemma MissText(h: Hashes, t: Table, bs: nat, f: Bytes, start: nat)
    requires start < |f| && bs >= 1
    requires Probe(t, h.weak(Read(f, start, bs)), h.strong(Read(f, start, bs))).None?
    ensures Text(Steps(h, t, bs, f, start)) == [f[start]] + Text(Steps(h, t, bs, f, start + 1))
  {
    var w := Read(f, start, bs);
    TextCons(Miss(w[0]), Steps(h, t, bs, f, start + 1));
  }

  lemma HitText(h: Hashes, t: Table, bs: nat, f: Bytes, start: nat)
    requires start < |f| && bs >= 1
    requires Probe(t, h.weak(Read(f, start, bs)), h.strong(Read(f, start, bs))).Some?
    ensures var w := Read(f, start, bs);
      Text(Steps(h, t, bs, f, start)) == w + Text(Steps(h, t, bs, f, start + |w|))
  {
    var w := Read(f, start, bs);
    TextCons(Hit(Probe(t, h.weak(w), h.strong(w)).value, w), Steps(h, t, bs, f, start + |w|));
  }

  lemma TextCons(s: Step, rest: seq<Step>)
    ensures Text([s] + rest) == StepText(s) + Text(rest)
  {
    assert ([s] + rest)[1..] == rest;
  }

  function LiteralCount(out: seq<Instruction>): nat
  {
    if out == [] then 0 else (if out[0].FileChunk? then 1 else 0) + LiteralCount(out[1..])
  }

  function MatchedLength(steps: seq<Step>): nat
  {
    if steps == [] then 0 else (if steps[0].Hit? then |steps[0].window| else 0) + MatchedLength(steps[1..])
  }

  lemma {:induction false} CountSteps(steps: seq<Step>, bs: nat)
    ensures LiteralCount(Instructions(steps, bs)) + MatchedLength(steps) == |Text(steps)|
  {
    if steps != [] {
      CountSteps(steps[1..], bs);
    }
  }

  /** Coverage: the number of literals plus the lengths of the matched
      windows is the length of the new file. */
  lemma Coverage(h: Hashes, sig: RsyncSig, f: Bytes)
    requires sig.blockSize >= 1
    ensures LiteralCount(Delta(h, sig, f))
            + MatchedLength(Steps(h, Catalogue(sig.checksums), sig.blockSize, f, 0)) == |f|
  {
    var steps := Steps(h, Catalogue(sig.checksums), sig.blockSize, f, 0);
    CountSteps(steps, sig.blockSize);
    StepsTile(h, Catalogue(sig.checksums), sig.blockSize, f, 0);
  }

  /** Replaying instructions against the old file: a literal gives its byte,
      a substring reference gives the old bytes it names, cut off at the end
      of the old file (the short last block is referenced with length bs). */
  function Replay(ref: Bytes, out: seq<Instruction>): Bytes
  {
    if out == [] then []
    else
      var piece := match out[0]
        case FileChunk(b) => [b]
        case OldFileSubString(off, len) => ref[Min(off, |ref|)..Min(off + len, |ref|)];
      piece + Replay(ref, out[1..])
  }

  /** The strong checksum does not collide with that of any block of the
      old file: a byte string with the same strong checksum as block i is
      block i. */
  ghost predicate NoCollisions(h: Hashes, ref: Bytes, bs: nat)
  {
    forall w: Bytes, i: nat :: i * bs < |ref| && h.strong(w) == h.strong(BlockAt(ref, bs, i)) ==>
      w == BlockAt(ref, bs, i)
  }

  /** A window that hits block n of the signature of ref is that block, so
      the copy instruction emitted for it replays to the window. */
  lemma HitIsBlock(h: Hashes, ref: Bytes, bs: nat, w: Bytes, n: nat)
    requires bs >= 1
    requires NoCollisions(h, ref, bs)
    requires Probe(Catalogue(Signature(h, ref, bs)), h.weak(w), h.strong(w)) == Some(n)
    ensures n * bs < |ref|
    ensures w == ref[Min(n * bs, |ref|)..Min(n * bs + bs, |ref|)]
  {
    var sig := Signature(h, ref, bs);
    CatalogueLookup(sig, h.weak(w), h.strong(w));
    SignatureShape(h, ref, bs);
    assert sig[n] == BlockSignature(h, BlockAt(ref, bs, n));
  }

  /** A hit names a block whose bytes, cut off at the end of ref, are the
      window. */
  ghost predicate HitReplays(ref: Bytes, bs: nat, s: Step)
  {
    s.Hit? ==> s.window == ref[Min(s.blockNumber * bs, |ref|)..Min(s.blockNumber * bs + bs, |ref|)]
  }

  ghost predicate HitsAreBlocks(ref: Bytes, bs: nat, steps: seq<Step>)
  {
    forall i :: 0 <= i < |steps| ==> HitReplays(ref, bs, steps[i])
  }

  /** Steps whose hits are blocks replay to the text they stand for. */
  lemma {:induction false} ReplayText(ref: Bytes, bs: nat, steps: seq<Step>)
    requires HitsAreBlocks(ref, bs, steps)
    ensures Replay(ref, Instructions(steps, bs)) == Text(steps)
  {
    if steps != [] {
      var rest := steps[1..];
      var out := Instructions(steps, bs);
      assert out == [Emit(steps[0], bs)] + Instructions(rest, bs);
      assert out[1..] == Instructions(rest, bs);
      assert HitReplays(ref, bs, steps[0]);
      assert HitsAreBlocks(ref, bs, rest) by {
        forall i | 0 <= i < |rest|
          ensures HitReplays(ref, bs, rest[i])
        {
          assert rest[i] == steps[i + 1];
        }
      }
      ReplayText(ref, bs, rest);
    }
  }

  /** Without collisions every hit of the delta loop is a block of ref. */
  lemma {:induction false} StepsHitBlocks(h: Hashes, ref: Bytes, bs: nat, f: Bytes, start: nat)
    requires bs >= 1 && start <= |f|
    requires NoCollisions(h, ref, bs)
    ensures HitsAreBlocks(ref, bs, Steps(h, Catalogue(Signature(h, ref, bs)), bs, f, start))
    decreases |f| - start
  {
    var t := Catalogue(Signature(h, ref, bs));
    var w := Read(f, start, bs);
    if w != [] {
      var steps := Steps(h, t, bs, f, start);
      var probe := Probe(t, h.weak(w), h.strong(w));
      var next := if probe.None? then start + 1 else start + |w|;
      assert steps[1..] == Steps(h, t, bs, f, next);
      StepsHitBlocks(h, ref, bs, f, next);
      if probe.Some? {
        HitIsBlock(h, ref, bs, w, probe.value);
        assert steps[0] == Hit(probe.value, w);
      }
      forall i | 0 < i < |steps|
        ensures steps[i] == steps[1..][i - 1]
      {
      }
    }
  }

  lemma ReplaySteps(h: Hashes, ref: Bytes, bs: nat, f: Bytes, start: nat)
    requires bs >= 1 && start <= |f|
    requires NoCollisions(h, ref, bs)
    ensures Replay(ref, Instructions(Steps(h, Catalogue(Signature(h, ref, bs)), bs, f, start), bs)) == f[start..]
  {
    var steps := Steps(h, Catalogue(Signature(h, ref, bs)), bs, f, start);
    StepsHitBlocks(h, ref, bs, f, start);
    ReplayText(ref, bs, steps);
    StepsTile(h, Catalogue(Signature(h, ref, bs)), bs, f, start);
  }

  /** Reconstruction: replaying the delta of f against the signature of ref
      rebuilds f, provided the strong checksum does not collide on the
      blocks of ref. */
  lemma Reconstruction(h: Hashes, objectId: string, ref: Bytes, f: Bytes, bs: nat)
    requires bs >= 1
    requires NoCollisions(h, ref, bs)
    ensures Replay(ref, Delta(h, RsyncSig(objectId, bs, Signature(h, ref, bs)), f)) == f
  {
    ReplaySteps(h, ref, bs, f, 0);
  }

  /** An empty new file gives an empty delta. */
  lemma DeltaOfEmptyFile(h: Hashes, sig: RsyncSig)
    ensures Delta(h, sig, []) == []
  {
  }

  /** With block size 0 the first read is empty and nothing is emitted. */
  lemma DeltaWithZeroBlockSize(h: Hashes, sig: RsyncSig, f: Bytes)
    requires sig.blockSize == 0
    ensures Delta(h, sig, f) == []
  {
  }

  lemma {:induction false} StepsWithoutCatalogue(h: Hashes, bs: nat, f: Bytes, start: nat)
    requires bs >= 1 && start <= |f|
    ensures Instructions(Steps(h, map[], bs, f, start), bs)
            == seq(|f| - start, i requires 0 <= i < |f| - start => FileChunk(f[start + i]))
    decreases |f| - start
  {
    if start < |f| {
      StepsWithoutCatalogue(h, bs, f, start + 1);
    }
  }

  /** An empty signature (the signature of an empty reference file) turns
      every byte of the new file into a literal, in order. */
  lemma DeltaAgainstEmptySignature(h: Hashes, objectId: string, bs: nat, f: Bytes)
    requires bs >= 1
    ensures Signature(h, [], bs) == []
    ensures Delta(h, RsyncSig(objectId, bs, []), f)
            == seq(|f|, i requires 0 <= i < |f| => FileChunk(f[i]))
  {
    StepsWithoutCatalogue(h, bs, f, 0);
  }

  ghost predicate DistinctBlocks(cs: seq<Checksums>)
  {
    forall a, b :: 0 <= a < b < |cs| ==> cs[a] != cs[b]
  }

  /** n copy instructions for consecutive blocks, from block j on. */
  function Copies(j: nat, n: nat, bs: nat): seq<Instruction>
    decreases n
  {
    if n == 0 then [] else [OldFileSubString(j * bs, bs)] + Copies(j + 1, n - 1, bs)
  }

  lemma {:induction false} CopiesAt(j: nat, n: nat, bs: nat, i: nat)
    requires i < n
    ensures |Copies(j, n, bs)| == n
    ensures Copies(j, n, bs)[i] == OldFileSubString((j + i) * bs, bs)
    decreases n
  {
    if i == 0 {
      CopiesLength(j + 1, n - 1, bs);
    } else {
      CopiesAt(j + 1, n - 1, bs, i - 1);
      assert j + 1 + (i - 1) == j + i;
    }
  }

  lemma {:induction false} CopiesLength(j: nat, n: nat, bs: nat)
    ensures |Copies(j, n, bs)| == n
    decreases n
  {
    if n > 0 {
      CopiesLength(j + 1, n - 1, bs);
    }
  }

  /** Where the window over block j of f starts, for a signature of k
      blocks: the end of the file once all blocks are passed. */
  function OwnStart(f: Bytes, bs: nat, k: nat, j: nat): nat
  {
    if j < k then j * bs else |f|
  }

  /** Block j of f, read as a window of the delta loop over f itself, hits
      block j when no two blocks share a checksum pair; the next window
      starts at block j + 1, or at the end of the file after the last one. */
  lemma OwnBlockHits(h: Hashes, f: Bytes, bs: nat, sig: seq<Checksums>, j: nat)
    requires bs >= 1 && sig == Signature(h, f, bs)
    requires j < |sig| && DistinctBlocks(sig)
    ensures OwnStart(f, bs, |sig|, j) < |f|
    ensures var w := Read(f, OwnStart(f, bs, |sig|, j), bs);
      && Probe(Catalogue(sig), h.weak(w), h.strong(w)) == Some(j)
      && OwnStart(f, bs, |sig|, j) + |w| == OwnStart(f, bs, |sig|, j + 1)
  {
    SignatureShape(h, f, bs);
    var start := OwnStart(f, bs, |sig|, j);
    assert start == j * bs && start < |f|;
    var w := Read(f, start, bs);
    assert w == BlockAt(f, bs, j);
    assert sig[j] == Checksums(h.weak(w), h.strong(w));
    CatalogueLookup(sig, h.weak(w), h.strong(w));
    assert (j + 1) * bs == start + bs;
  }

  /** One hit of the delta loop over f against its own signature sig. */
  lemma OwnBlockStep(h: Hashes, f: Bytes, bs: nat, sig: seq<Checksums>, j: nat)
    requires bs >= 1 && sig == Signature(h, f, bs)
    requires j < |sig| && DistinctBlocks(sig)
    ensures OwnStart(f, bs, |sig|, j) <= OwnStart(f, bs, |sig|, j + 1) <= |f|
    ensures Instructions(Steps(h, Catalogue(sig), bs, f, OwnStart(f, bs, |sig|, j)), bs)
      == [OldFileSubString(j * bs, bs)] + Instructions(Steps(h, Catalogue(sig), bs, f, OwnStart(f, bs, |sig|, j + 1)), bs)
  {
    OwnBlockHits(h, f, bs, sig, j);
    var start := OwnStart(f, bs, |sig|, j);
    HitStep(h, Catalogue(sig), bs, f, start);
  }

  lemma {:induction false} StepsOverOwnBlocks(h: Hashes, f: Bytes, bs: nat, sig: seq<Checksums>, j: nat)
    requires bs >= 1 && sig == Signature(h, f, bs)
    requires j <= |sig| && DistinctBlocks(sig)
    ensures OwnStart(f, bs, |sig|, j) <= |f|
    ensures Instructions(Steps(h, Catalogue(sig), bs, f, OwnStart(f, bs, |sig|, j)), bs) == Copies(j, |sig| - j, bs)
    decreases |sig| - j
  {
    var k := |sig|;
    if j < k {
      OwnBlockStep(h, f, bs, sig, j);
      StepsOverOwnBlocks(h, f, bs, sig, j + 1);
      assert Copies(j, k - j, bs) == [OldFileSubString(j * bs, bs)] + Copies(j + 1, k - (j + 1), bs);
    } else {
      assert Read(f, |f|, bs) == [];
    }
  }

  /** The delta of a file against its own signature copies every block,
      block i from offset i*bs, when no two blocks share a checksum pair. */
  lemma DeltaOfIdenticalFile(h: Hashes, objectId: string, f: Bytes, bs: nat)
    requires bs >= 1
    requires DistinctBlocks(Signature(h, f, bs))
    ensures |Delta(h, RsyncSig(objectId, bs, Signature(h, f, bs)), f)| == |Signature(h, f, bs)|
    ensures forall i :: 0 <= i < |Signature(h, f, bs)| ==>
      var d := Delta(h, RsyncSig(objectId, bs, Signature(h, f, bs)), f)[i];
      d.OldFileSubString? && d.offset == i * bs && d.length == bs
  {
    var sig := Signature(h, f, bs);
    var k := |sig|;
    SignatureShape(h, f, bs);
    StepsOverOwnBlocks(h, f, bs, sig, 0);
    assert OwnStart(f, bs, k, 0) == 0;
    var d := Delta(h, RsyncSig(objectId, bs, sig), f);
    assert d == Copies(0, k, bs);
    CopiesLength(0, k, bs);
    forall i | 0 <= i < k
      ensures d[i].OldFileSubString? && d[i].offset == i * bs && d[i].length == bs
    {
      CopiesAt(0, k, bs, i);
    }
  }

  /** Two equal blocks share a checksum pair and the table keeps the later
      one, so both windows of [7, 7] (block size 1) copy from offset 1. */
  lemma RepeatedBlockCopiesLastBlock(h: Hashes, objectId: string)
    ensures Delta(h, RsyncSig(objectId, 1, Signature(h, [7, 7], 1)), [7, 7])
            == [OldFileSubString(1, 1), OldFileSubString(1, 1)]
  {
    var f: Bytes := [7, 7];
    var c := BlockSignature(h, [7]);
    assert Read(f, 0, 1) == [7] && Read(f, 1, 1) == [7];
    assert Signature(h, f, 1) == [c, c];
    var t := Catalogue([c, c]);
    assert Probe(t, c.weak, c.strong) == Some(1);
    assert Steps(h, t, 1, f, 2) == [];
    assert Steps(h, t, 1, f, 1) == [Hit(1, [7])];
    assert Steps(h, t, 1, f, 0) == [Hit(1, [7]), Hit(1, [7])];
    assert Instructions([Hit(1, [7])], 1) == [OldFileSubString(1, 1)];
  }
}
