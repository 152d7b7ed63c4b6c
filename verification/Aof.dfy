/** The part of the server structure that redis-stable/src/aof.c updates, with the rewrite buffer in blocks. */
module Aof {
  import opened Bytes
  import opened Decimal
  import opened RespSpec
  import opened AofSpec
  import Resp

  const BLOCK_SIZE := 10485760

  /** aofrwblock: the used part of its buffer, and how much is free. */
  datatype Block = Block(data: seq<byte>, free: nat)

  function Joined(blocks: seq<Block>): seq<byte> {
    if blocks == [] then [] else Joined(blocks[..|blocks| - 1]) + blocks[|blocks| - 1].data
  }

  /** Every block has its size, and only the last one may have room left. */
  ghost predicate BlocksOk(blocks: seq<Block>) {
    && (forall i :: 0 <= i < |blocks| ==> |blocks[i].data| + blocks[i].free == BLOCK_SIZE)
    && (forall i :: 0 <= i < |blocks| - 1 ==> blocks[i].free == 0)
  }

  lemma {:induction false} JoinedLength(blocks: seq<Block>)
    requires BlocksOk(blocks)
    ensures blocks != [] ==>
              |Joined(blocks)| == (|blocks| - 1) * BLOCK_SIZE + |blocks[|blocks| - 1].data|
  {
    if |blocks| > 1 {
      JoinedLength(blocks[..|blocks| - 1]);
    }
  }

  lemma NothingJoined()
    ensures Joined([]) == []
  {
  }

  lemma JoinedLast(blocks: seq<Block>, b: Block)
    ensures Joined(blocks + [b]) == Joined(blocks) + b.data
  {
    assert (blocks + [b])[..|blocks|] == blocks;
  }

  /** The bytes that aof.c prints for SELECT (line 394). */
  function SelectPrinted(seldb: seq<byte>): seq<byte> {
    [42, 50, 13, 10, 36, 54, 13, 10] + SELECT + [13, 10, 36] + Digits(|seldb|) + CRLF + seldb + CRLF
  }

  lemma TwoHeaders()
    ensures Header(STAR, 2) == [42, 50, 13, 10] && Header(DOLLAR, 6) == [36, 54, 13, 10] && |SELECT| == 6
  {
    assert Digits(2) == [50] && Digits(6) == [54];
    hide Digits;
  }

  lemma PrintTwo(a: seq<byte>, b: seq<byte>)
    ensures PrintCommand([a, b]) == Header(STAR, 2) + (PrintArg(a) + PrintArg(b))
  {
    var cmd, one, none: Args := [a, b], [b], [];
    assert cmd[1..] == one && one[1..] == none;
    assert PrintArgs(one) == PrintArg(b) + PrintArgs(none) == PrintArg(b);
    assert PrintArgs(cmd) == PrintArg(a) + PrintArgs(one);
    hide PrintArg, Header, PrintArgs;
  }

  lemma ArgBytes(a: seq<byte>)
    ensures PrintArg(a) == Header(DOLLAR, |a|) + (a + CRLF)
    ensures Header(DOLLAR, |a|) == [DOLLAR] + Digits(|a|) + CRLF && CRLF == [13, 10] && DOLLAR == 36
  {
    hide Digits;
  }

  lemma SelectParts(seldb: seq<byte>)
    ensures SelectPrinted(seldb)
         == [42, 50, 13, 10, 36, 54, 13, 10] + SELECT + [13, 10, 36] + Digits(|seldb|) + CRLF + seldb + CRLF
  {
    hide Digits;
  }

  lemma Regroup(h2: seq<byte>, h6: seq<byte>, sel: seq<byte>, e: seq<byte>, d: seq<byte>, n: seq<byte>, db: seq<byte>)
    ensures (h2 + h6) + sel + (e + d) + n + e + db + e == h2 + ((h6 + (sel + e)) + ((d + n + e) + (db + e)))
  {
  }

  /** They are those of the command printer. */
  lemma SelectBytes(db: DbId)
    ensures SelectPrinted(Ll2String(db)) == PrintCommand(SelectCommand(db))
  {
    assert SelectCommand(db) == [SELECT, Ll2String(db)];
    hide *;
    var seldb := Ll2String(db);
    TwoHeaders();
    PrintTwo(SELECT, seldb);
    ArgBytes(SELECT);
    ArgBytes(seldb);
    SelectParts(seldb);
    Regroup([42, 50, 13, 10], [36, 54, 13, 10], SELECT, CRLF, [DOLLAR], Digits(|seldb|), seldb);
    assert [42, 50, 13, 10, 36, 54, 13, 10] == [42, 50, 13, 10] + [36, 54, 13, 10];
    assert [13, 10, 36] == CRLF + [DOLLAR];
  }

  class AofServer<D> {
    const apply: Apply<D>
    var state: AofState
    var fd: Fd
    var files: map<nat, seq<byte>>
    var path: nat
    var nextInode: nat
    var buf: seq<byte>
    var selected: int
    var child: Option<seq<byte>>
    var blocks: seq<Block>
    var scheduled: bool
    var everysec: bool
    var postponed: int
    var data: D

    ghost function Abs(): Server<D>
      reads this
    {
      Server(state, fd, files, path, nextInode, buf, selected, child, Joined(blocks), scheduled, everysec, postponed,
             data)
    }

    ghost predicate Ok()
      reads this
    {
      BlocksOk(blocks)
    }

    constructor (apply: Apply<D>, bytes: seq<byte>, everysec: bool, data: D)
      ensures this.apply == apply && Ok()
      ensures Abs() == Server(On, Open(0), map[0 := bytes], 0, 1, [], -1, None, [], false, everysec, 0, data)
    {
      this.apply, this.everysec, this.data := apply, everysec, data;
      state, fd, files, path, nextInode, buf, selected := On, Open(0), map[0 := bytes], 0, 1, [], -1;
      child, blocks, scheduled, postponed := None, [], false, 0;
    }

    /** aofRewriteBufferSize. */
    method RewriteBufferSize() returns (n: nat)
      requires Ok()
      ensures n == |Joined(blocks)|
    {
      JoinedLength(blocks);
      if blocks == [] { return 0; }
      return (|blocks| - 1) * BLOCK_SIZE + |blocks[|blocks| - 1].data|;
    }

    /** Lines 97-104: fills the last block as far as it goes. */
    method FillLastBlock(s: seq<byte>) returns (n: nat)
      requires Ok() && blocks != []
      modifies this`blocks
      ensures Ok() && n <= |s| && Joined(blocks) == old(Joined(blocks)) + s[..n]
      ensures n < |s| ==> blocks != [] && blocks[|blocks| - 1].free == 0
      ensures n == 0 && s != [] ==> old(blocks)[|old(blocks)| - 1].free == 0
    {
      var last := blocks[|blocks| - 1];
      n := if last.free < |s| then last.free else |s|;
      ghost var init := blocks[..|blocks| - 1];
      blocks := blocks[|blocks| - 1 := Block(last.data + s[..n], last.free - n)];
      assert blocks[..|blocks| - 1] == init;
    }

    /** Lines 106-113: a new block, once the last one is full. */
    method AddBlock()
      requires Ok() && (blocks != [] ==> blocks[|blocks| - 1].free == 0)
      modifies this`blocks
      ensures Ok() && Joined(blocks) == old(Joined(blocks))
      ensures blocks != [] && blocks[|blocks| - 1].free == BLOCK_SIZE
    {
      hide Joined;
      JoinedLast(blocks, Block([], BLOCK_SIZE));
      blocks := blocks + [Block([], BLOCK_SIZE)];
    }

    /** aofRewriteBufferAppend. */
    method RewriteBufferAppend(s0: seq<byte>)
      requires Ok()
      modifies this`blocks
      ensures Ok() && Joined(blocks) == old(Joined(blocks)) + s0
    {
      hide Joined, BlocksOk;
      var s := s0;
      ghost var j := Joined(blocks);
      while s != []
        invariant Ok() && Joined(blocks) + s == j + s0
        decreases |s|, if blocks == [] || blocks[|blocks| - 1].free == 0 then 1 else 0
      {
        if blocks != [] {
          var n := FillLastBlock(s);
          assert s == s[..n] + s[n..];
          s := s[n..];
        }
        if s != [] {
          AddBlock();
        }
      }
    }

    /** aofRewriteBufferWrite, as the bytes it writes. */
    method RewriteBufferWrite() returns (out: seq<byte>)
      ensures out == Joined(blocks)
    {
      out := [];
      var i := 0;
      while i < |blocks|
        invariant 0 <= i <= |blocks| && out == Joined(blocks[..i])
      {
        assert blocks[..i + 1][..i] == blocks[..i];
        if blocks[i].data != [] {
          out := out + blocks[i].data;
        }
        i := i + 1;
      }
      assert blocks[..i] == blocks;
    }

    /** feedAppendOnlyFile, for a command that needs no translation. */
    method FeedAppendOnlyFile(db: DbId, cmd: Args)
      requires Ok()
      modifies this
      ensures Ok() && Abs() == Feed(old(Abs()), db, cmd)
    {
      var out := [];
      if db != selected {
        var seldb := Ll2String(db);
        out := SelectPrinted(seldb);
        SelectBytes(db);
      }
      assert db != selected ==> out == PrintCommand(SelectCommand(db));
      hide PrintCommand, SelectCommand, Joined;
      out := Resp.CatCommand(out, cmd);
      selected := db;
      if state == On {
        buf := buf + out;
      }
      if child.Some? {
        RewriteBufferAppend(out);
      }
    }

    /** A command that changes the data, and its propagation (redis-stable/src/redis.c:1566-1573). */
    method Call(db: DbId, cmd: Args)
      requires Ok()
      modifies this
      ensures Ok() && Abs() == DoWrite(apply, old(Abs()), db, cmd)
    {
      data := apply(data, db, cmd);
      if state != Off {
        FeedAppendOnlyFile(db, cmd);
      }
    }

    /** flushAppendOnlyFile, when write(2) writes the whole buffer. */
    method FlushAppendOnlyFile(force: bool, syncing: bool, unixtime: int)
      requires Ok() && (buf != [] ==> fd.Open? && fd.inode in files)
      modifies this
      ensures Ok() && Abs() == DoFlush(old(Abs()), force, syncing, unixtime)
      ensures old(buf) != [] && old(AofSpec.Due(Abs(), force, syncing, unixtime)) ==>
                buf == [] && postponed == 0 && files == old(files)[fd.inode := old(files[fd.inode]) + old(buf)]
    {
      if buf == [] { return; }
      if everysec && !force && syncing {
        if postponed == 0 {
          postponed := unixtime;
          return;
        } else if unixtime - postponed < 2 {
          return;
        }
      }
      postponed := 0;
      files := files[fd.inode := files[fd.inode] + buf];
      buf := [];
    }

    /** rewriteAppendOnlyFileBackground; snapshot is what the child will write. */
    method RewriteBackground(canFork: bool, snapshot: seq<byte>) returns (ok: bool)
      requires Ok()
      modifies this
      ensures Ok() && (Abs(), ok) == DoStartRewrite(old(Abs()), canFork, snapshot)
    {
      if child.Some? || !canFork { return false; }
      child, scheduled, selected := Some(snapshot), false, -1;
      return true;
    }

    /** Lines 1051-1148, when every file operation succeeds. */
    method InstallRewritten()
      requires Ok() && child.Some?
      modifies this`fd, this`files, this`path, this`nextInode, this`buf, this`selected, this`state
      ensures Abs() == SwitchFile(old(Abs()))
    {
      hide Joined, BlocksOk;
      var diff := RewriteBufferWrite();
      var newfd := nextInode;
      files, path, nextInode := files[newfd := child.value + diff], newfd, nextInode + 1;
      Reopen(newfd);
    }

    /** Lines 1110-1148: the server goes on with the new file. */
    method Reopen(newfd: nat)
      modifies this`fd, this`buf, this`selected, this`state
      ensures fd == if old(fd) == NoFd then NoFd else Open(newfd)
      ensures selected == if old(fd) == NoFd then old(selected) else -1
      ensures buf == if old(fd) == NoFd then old(buf) else []
      ensures state == if old(state) == WaitRewrite then On else old(state)
    {
      if fd != NoFd {
        fd, selected, buf := Open(newfd), -1, [];
      }
      if state == WaitRewrite {
        state := On;
      }
    }

    /** backgroundRewriteDoneHandler. */
    method BackgroundRewriteDone(ok: bool)
      requires Ok() && child.Some?
      modifies this
      ensures Ok() && Abs() == DoChildDone(old(Abs()), ok)
    {
      hide Joined;
      NothingJoined();
      if ok {
        InstallRewritten();
      }
      blocks, child := [], None;
      if state == WaitRewrite {
        scheduled := true;
      }
    }

    /** startAppendOnly. */
    method StartAppendOnly(canOpen: bool, canFork: bool, snapshot: seq<byte>) returns (ok: bool)
      requires Ok() && state == Off
      modifies this
      ensures Ok() && Abs() == DoStartAof(old(Abs()), canOpen, canFork, snapshot)
      ensures ok == (canOpen && canFork && old(child).None?) && ok == (state == WaitRewrite)
    {
      hide Joined;
      if !canOpen {
        fd := NoFd;
        return false;
      }
      fd := Open(path);
      ok := RewriteBackground(canFork, snapshot);
      if !ok {
        fd := Stale;
        return;
      }
      state := WaitRewrite;
    }

    /** stopAppendOnly. */
    method StopAppendOnly()
      requires Ok() && state != Off && (buf != [] ==> fd.Open? && fd.inode in files)
      modifies this
      ensures Ok() && Abs() == DoStopAof(old(Abs()))
    {
      hide Joined;
      NothingJoined();
      FlushAppendOnlyFile(true, false, 0);
      fd, selected, state := NoFd, -1, Off;
      if child.Some? {
        blocks, child := [], None;
      }
    }
  }
}
