/**
  Loading files that the saving code did not write as they are: damaged, cut off, or by earlier versions
  (redis-stable/src/rdb.c:1061-1178).
 */
module RdbForeign {
  import opened Bytes
  import opened Decimal
  import opened LittleEndian
  import opened Keyspaces
  import opened RdbSpec
  import opened RdbRoundTrip
  import LzfFormat
  import Crc64
  import opened RdbFooter

  // ---- Reading on ----

  // Each loader takes what it needs from the front, so that what follows does not matter to it.

  /** The bytes r are what is left at the end of s. */
  predicate Suffix(r: seq<byte>, s: seq<byte>) {
    |r| <= |s| && s[|s| - |r|..] == r
  }

  lemma SuffixTwice(a: seq<byte>, b: seq<byte>, c: seq<byte>)
    requires Suffix(a, b) && Suffix(b, c)
    ensures Suffix(a, c)
  {
    assert c[|c| - |b|..][|b| - |a|..] == c[|c| - |a|..];
  }

  lemma Dropped(s: seq<byte>, n: nat, t: seq<byte>)
    requires n <= |s|
    ensures Suffix(s[n..], s) && (s + t)[n..] == s[n..] + t && (s + t)[..n] == s[..n]
  {
  }

  lemma LenOn(s: seq<byte>, t: seq<byte>)
    requires LoadLen(s).Some?
    ensures var l := LoadLen(s).value; LoadLen(s + t) == Some(l.(rest := l.rest + t)) && Suffix(l.rest, s)
  {
    Dropped(s, 1, t);
    if s[0] as int / 64 == 1 { Dropped(s, 2, t); }
    if s[0] as int / 64 == 2 { Dropped(s, 5, t); }
  }

  lemma IntegerOn(s: seq<byte>, width: nat, limit: nat, t: seq<byte>)
    requires LoadInteger(s, width, limit).Some?
    ensures var l := LoadInteger(s, width, limit).value;
            LoadInteger(s + t, width, limit) == Some(l.(rest := l.rest + t)) && Suffix(l.rest, s)
  {
    Dropped(s, width, t);
    hide FromLe, Signed, Ll2String;
  }

  lemma LzfOn(s: seq<byte>, t: seq<byte>)
    requires LoadLzf(s).Some?
    ensures var l := LoadLzf(s).value; LoadLzf(s + t) == Some(l.(rest := l.rest + t)) && Suffix(l.rest, s)
  {
    hide LoadLen, LzfFormat.Decode, Filled, Suffix;
    LenOn(s, t);
    var clen := LoadLen(s).value;
    LenOn(clen.rest, t);
    var len := LoadLen(clen.rest).value;
    Dropped(len.rest, clen.n, t);
    SuffixTwice(len.rest, clen.rest, s);
    SuffixTwice(len.rest[clen.n..], len.rest, s);
  }

  lemma StringOn(s: seq<byte>, t: seq<byte>)
    requires LoadString(s).Some?
    ensures var l := LoadString(s).value; LoadString(s + t) == Some(l.(rest := l.rest + t)) && Suffix(l.rest, s)
  {
    hide LoadLen, LoadInteger, LoadLzf, Suffix;
    LenOn(s, t);
    var l := LoadLen(s).value;
    if l.encoded {
      if l.n == 0 { IntegerOn(l.rest, 1, 0x80, t); }
      if l.n == 1 { IntegerOn(l.rest, 2, 0x8000, t); }
      if l.n == 2 { IntegerOn(l.rest, 4, 0x8000_0000, t); }
      if l.n == 3 { LzfOn(l.rest, t); }
    } else {
      Dropped(l.rest, l.n, t);
    }
    SuffixTwice(LoadString(s).value.rest, l.rest, s);
  }

  lemma {:induction false} ItemsOn(s: seq<byte>, count: nat, acc: seq<seq<byte>>, t: seq<byte>)
    requires LoadItems(s, count, acc).Some?
    ensures var l := LoadItems(s, count, acc).value;
            LoadItems(s + t, count, acc) == Some(l.(rest := l.rest + t)) && Suffix(l.rest, s)
    decreases count
  {
    if count == 0 {
      Dropped(s, 0, t);
    } else {
      hide LoadString, Suffix;
      StringOn(s, t);
      var l := LoadString(s).value;
      ItemsOn(l.rest, count - 1, acc + [l.value], t);
      SuffixTwice(LoadItems(s, count, acc).value.rest, l.rest, s);
    }
  }

  lemma FieldsStep(s: seq<byte>, count: nat, acc: map<seq<byte>, seq<byte>>)
    requires count > 0 && LoadFields(s, count, acc).Some?
    ensures LoadString(s).Some? && LoadString(LoadString(s).value.rest).Some?
    ensures var f := LoadString(s).value;
            var v := LoadString(f.rest).value;
            f.value !in acc && LoadFields(s, count, acc) == LoadFields(v.rest, count - 1, acc[f.value := v.value])
  {
    hide LoadString;
  }

  lemma NoFields(s: seq<byte>, acc: map<seq<byte>, seq<byte>>)
    ensures LoadFields(s, 0, acc) == Some(Loaded(acc, s))
  {
  }

  lemma {:induction false} FieldsOn(s: seq<byte>, count: nat, acc: map<seq<byte>, seq<byte>>, t: seq<byte>)
    requires LoadFields(s, count, acc).Some?
    ensures var l := LoadFields(s, count, acc).value;
            LoadFields(s + t, count, acc) == Some(l.(rest := l.rest + t)) && Suffix(l.rest, s)
    decreases count
  {
    hide *;
    if count == 0 {
      NoFields(s, acc);
      NoFields(s + t, acc);
      Dropped(s, 0, t);
      assert s[0..] == s;
    } else {
      FieldsStep(s, count, acc);
      var f := LoadString(s).value;
      var v := LoadString(f.rest).value;
      var acc' := acc[f.value := v.value];
      StringOn(s, t);
      StringOn(f.rest, t);
      OneMoreField(s + t, count - 1, acc, f.value, f.rest + t, v.value, v.rest + t);
      FieldsOn(v.rest, count - 1, acc', t);
      SuffixTwice(v.rest, f.rest, s);
      SuffixTwice(LoadFields(v.rest, count - 1, acc').value.rest, v.rest, s);
    }
  }

  lemma ObjectOn(s: seq<byte>, kind: byte, t: seq<byte>)
    requires LoadObject(s, kind).Some?
    ensures var l := LoadObject(s, kind).value;
            LoadObject(s + t, kind) == Some(l.(rest := l.rest + t)) && Suffix(l.rest, s)
  {
    hide LoadString, LoadLen, LoadItems, LoadFields, Suffix;
    if kind == 0 || IsPackedKind(kind) {
      StringOn(s, t);
    } else {
      LenOn(s, t);
      var len := LoadLen(s).value;
      if kind == 1 || kind == 2 { ItemsOn(len.rest, len.n, [], t); }
      if kind == 4 { FieldsOn(len.rest, len.n, map[], t); }
      SuffixTwice(LoadObject(s, kind).value.rest, len.rest, s);
    }
  }

  lemma PairOn(op: Opcode, t: seq<byte>)
    requires LoadPair(op).Some?
    ensures var p := LoadPair(op).value;
            LoadPair(op.(rest := op.rest + t)) == Some(p.(rest := p.rest + t)) && Suffix(p.rest, op.rest)
  {
    hide LoadString, LoadObject, Suffix;
    StringOn(op.rest, t);
    var k := LoadString(op.rest).value;
    ObjectOn(k.rest, op.kind, t);
    SuffixTwice(LoadPair(op).value.rest, k.rest, op.rest);
  }

  lemma OpcodeOn(s: seq<byte>, t: seq<byte>)
    requires LoadOpcode(s).Some?
    ensures var op := LoadOpcode(s).value; LoadOpcode(s + t) == Some(op.(rest := op.rest + t)) && Suffix(op.rest, s)
  {
    Dropped(s, 1, t);
    if s[0] == EXPIRETIME {
      Dropped(s, 6, t);
      assert (s + t)[1..5] == s[1..5];
    }
    if s[0] == EXPIRETIME_MS {
      Dropped(s, 10, t);
      assert (s + t)[1..9] == s[1..9];
    }
    hide FromLe, Signed;
  }

  lemma {:induction false} RecordsOn(s: seq<byte>, d: Table<RdbEntry>, db: int, env: Env, t: seq<byte>)
    requires LoadRecords(s, d, db, env).Some?
    ensures var l := LoadRecords(s, d, db, env).value;
            LoadRecords(s + t, d, db, env) == Some(l.(rest := l.rest + t)) && Suffix(l.rest, s)
    decreases |s|
  {
    hide LoadOpcode, LoadPair, LoadLen, Suffix;
    OpcodeOn(s, t);
    var op := LoadOpcode(s).value;
    if op.kind == SELECTDB {
      LenOn(op.rest, t);
      var l := LoadLen(op.rest).value;
      RecordsOn(l.rest, d, l.n, env, t);
      SuffixTwice(l.rest, op.rest, s);
      SuffixTwice(LoadRecords(s, d, db, env).value.rest, l.rest, s);
    } else if op.kind != EOF {
      PairOn(op, t);
      var p := LoadPair(op).value;
      if !env.slave && op.expire != -1 && op.expire < env.now {
        RecordsOn(p.rest, d, db, env, t);
      } else {
        RecordsOn(p.rest, d[(db, p.value.0) := RdbEntry(p.value.1, op.expire)], db, env, t);
      }
      SuffixTwice(p.rest, op.rest, s);
      SuffixTwice(LoadRecords(s, d, db, env).value.rest, p.rest, s);
    }
  }

  // ---- The checksum ----

  /** Where the records of a file end: after n bytes. */
  ghost predicate RecordsEnd(file: seq<byte>, env: Env, n: nat) {
    9 <= n <= |file| && exists d :: LoadRecords(file[9..], map[], 0, env) == Some(Loaded(d, file[n..]))
  }

  /** After the records stands the checksum of everything before it, or zero. */
  ghost predicate Checked(file: seq<byte>, env: Env) {
    exists n: nat ::
      && RecordsEnd(file, env, n) && n + 8 <= |file|
      && (file[n..n + 8] == Footer(0) || file[n..n + 8] == Footer(Crc64.Divide(0, file[..n])))
  }

  /** A file with a checksum is accepted only if that is zero or the one of everything before it. */
  lemma AcceptedIsChecked(file: seq<byte>, env: Env)
    requires LoadFile(file, env).Some? && env.checksum && Strtoll(file[5..9]).0 >= 5
    ensures Checked(file, env)
  {
    hide LoadRecords, Strtoll, Footer, Crc64.Divide;
    var l := LoadRecords(file[9..], map[], 0, env).value;
    var n := |file| - |l.rest|;
    RecordsOn(file[9..], map[], 0, env, []);
    assert l.rest == file[9..][|file| - 9 - |l.rest|..] == file[n..];
    assert l.rest[..8] == file[n..n + 8];
    assert RecordsEnd(file, env, n);
  }

  lemma OneEnd(file: seq<byte>, env: Env, n: nat, m: nat)
    requires RecordsEnd(file, env, n) && RecordsEnd(file, env, m)
    ensures n == m
  {
    assert |file[n..]| == |file| - n && |file[m..]| == |file| - m;
    hide LoadRecords;
  }

  /** The bytes of a file up to the end of its records, and a checksum after them. */
  lemma ChecksumNeeded(head: seq<byte>, foot: seq<byte>, env: Env)
    requires |head| >= 9 && |foot| == 8 && env.checksum && Strtoll(head[5..9]).0 >= 5
    requires forall n :: RecordsEnd(head + foot, env, n) ==> n == |head|
    requires LoadFile(head + foot, env).Some?
    ensures foot == Footer(0) || foot == Footer(Crc64.Divide(0, head))
  {
    hide LoadFile, RecordsEnd, Footer, Crc64.Divide, Strtoll;
    var file := head + foot;
    Sliced(head, foot);
    AcceptedIsChecked(file, env);
    var n: nat :| RecordsEnd(file, env, n) && n + 8 <= |file|
               && (file[n..n + 8] == Footer(0) || file[n..n + 8] == Footer(Crc64.Divide(0, file[..n])));
    assert n == |head|;
  }

  lemma Sliced(head: seq<byte>, foot: seq<byte>)
    requires |head| >= 9 && |foot| == 8
    ensures var n, file := |head|, head + foot;
            file[5..9] == head[5..9] && file[n..n + 8] == foot && file[..n] == head
  {
  }

  /** What a save with a checksum writes. */
  ghost predicate SavedWith(dbs: Databases, now: int, body: seq<byte>, file: seq<byte>) {
    DbsSaved(dbs, |dbs|, now, body)
    && file == MAGIC + body + [EOF] + Footer(Crc64.Divide(0, MAGIC + body + [EOF]))
  }

  /** The records of a file that some save could have written end before its last eight bytes. */
  lemma SavedEnds(dbs: Databases, now: int, body: seq<byte>, foot: seq<byte>, env: Env)
    requires DbsSaved(dbs, |dbs|, now, body) && WellFormed(dbs) && |dbs| <= env.dbnum && |foot| == 8
    ensures var file := MAGIC + body + [EOF] + foot;
            forall n :: RecordsEnd(file, env, n) ==> n == |MAGIC + body + [EOF]|
  {
    MagicIsCurrent();
    var head, file := MAGIC + body + [EOF], MAGIC + body + [EOF] + foot;
    FileParts(file, body, foot);
    hide *;
    var d, db := DbsLoad(dbs, |dbs|, now, body, [EOF] + foot, env);
    EndLoads(foot, d, db, env);
    assert file[|head|..] == foot;
    EndsAt(file, env, |head|, d);
    forall n | RecordsEnd(file, env, n) ensures n == |head| {
      OneEnd(file, env, n, |head|);
    }
  }

  lemma EndsAt(file: seq<byte>, env: Env, n: nat, d: Table<RdbEntry>)
    requires 9 <= n <= |file| && LoadRecords(file[9..], map[], 0, env) == Some(Loaded(d, file[n..]))
    ensures RecordsEnd(file, env, n)
  {
    hide LoadRecords;
  }

  /** The checksum of a saved file may only be cleared: with any other one the file is refused. */
  lemma DamagedChecksumRefused(dbs: Databases, now: int, body: seq<byte>, file: seq<byte>, foot: seq<byte>, env: Env)
    requires SavedWith(dbs, now, body, file) && WellFormed(dbs) && |dbs| <= env.dbnum && env.checksum
    requires |foot| == 8 && foot != Footer(0) && MAGIC + body + [EOF] + foot != file
    ensures LoadFile(MAGIC + body + [EOF] + foot, env) == None
  {
    var head := MAGIC + body + [EOF];
    assert DbsSaved(dbs, |dbs|, now, body) && file == head + Footer(Crc64.Divide(0, head));
    MagicIsCurrent();
    assert head[5..9] == MAGIC[5..9];
    hide *;
    SavedEnds(dbs, now, body, foot, env);
    if LoadFile(head + foot, env).Some? { ChecksumNeeded(head, foot, env); }
  }

  lemma DamageShows(before: seq<byte>, u: seq<byte>, v: seq<byte>, after: seq<byte>)
    requires |u| == |v| <= 8 && u != v && Crc64.Divide(0, before + u + after) != 0
    ensures var foot := Footer(Crc64.Divide(0, before + u + after));
            foot != Footer(0) && foot != Footer(Crc64.Divide(0, before + v + after))
  {
    hide *;
    var c, c' := Crc64.Divide(0, before + u + after), Crc64.Divide(0, before + v + after);
    Crc64.BurstChangesChecksum(0, before, u, v, after);
    if Footer(c) == Footer(0) { FooterInjective(c, 0); }
    if Footer(c) == Footer(c') { FooterInjective(c, c'); }
  }

  lemma VersionKept(before: seq<byte>, x: seq<byte>, y: seq<byte>, tail: seq<byte>)
    requires MAGIC + tail == before + x && |before| >= 9
    ensures |before + y| >= 9 && Strtoll((before + y)[5..9]).0 == 6
  {
    MagicIsCurrent();
    assert (before + y)[5..9] == before[5..9] == (MAGIC + tail)[5..9] == MAGIC[5..9];
    hide Strtoll;
  }

  lemma SavedFooter(dbs: Databases, now: int, body: seq<byte>, file: seq<byte>)
    requires SavedWith(dbs, now, body, file)
    ensures |file| >= 8 && file[|file| - 8..] == Footer(Crc64.Divide(0, MAGIC + body + [EOF]))
  {
    hide DbsSaved, Crc64.Divide, Footer;
  }

  /**
    A saved file in which up to eight bytes in a row were changed, so that its records end at the same place, is
    refused; a checksum of zero is the exception, since that says that there is none.
   */
  lemma DamagedFileRefused(dbs: Databases, now: int, body: seq<byte>, file: seq<byte>, before: seq<byte>, u: seq<byte>,
                           v: seq<byte>, after: seq<byte>, env: Env)
    requires SavedWith(dbs, now, body, file) && env.checksum
    requires MAGIC + body + [EOF] == before + u + after && |before| >= 9 && |u| == |v| <= 8 && u != v
    requires Crc64.Divide(0, MAGIC + body + [EOF]) != 0
    requires var file' := before + v + after + file[|file| - 8..];
             forall n :: RecordsEnd(file', env, n) ==> n == |file'| - 8
    ensures LoadFile(before + v + after + file[|file| - 8..], env) == None
  {
    hide *;
    SavedFooter(dbs, now, body, file);
    var head', foot := before + v + after, file[|file| - 8..];
    assert MAGIC + (body + [EOF]) == MAGIC + body + [EOF] == before + (u + after);
    assert head' == before + (v + after);
    VersionKept(before, u + after, v + after, body + [EOF]);
    DamageShows(before, u, v, after);
    if LoadFile(head' + foot, env).Some? { ChecksumNeeded(head', foot, env); }
  }

  /** In particular if the damage turns the records into those of another dataset. */
  lemma DisguisedFileRefused(dbs: Databases, dbs': Databases, now: int, body: seq<byte>, body': seq<byte>,
                             file: seq<byte>, before: seq<byte>, u: seq<byte>, v: seq<byte>, after: seq<byte>, env: Env)
    requires SavedWith(dbs, now, body, file) && DbsSaved(dbs', |dbs'|, now, body') && env.checksum
    requires WellFormed(dbs') && |dbs'| <= env.dbnum
    requires body == before + u + after && body' == before + v + after && |u| == |v| <= 8 && u != v
    requires Crc64.Divide(0, MAGIC + body + [EOF]) != 0
    ensures LoadFile(MAGIC + body' + [EOF] + file[|file| - 8..], env) == None
  {
    hide *;
    SavedFooter(dbs, now, body, file);
    Regrouped(body, before, u, after);
    Regrouped(body', before, v, after);
    SavedEnds(dbs', now, body', file[|file| - 8..], env);
    DamagedFileRefused(dbs, now, body, file, MAGIC + before, u, v, after + [EOF], env);
  }

  lemma Regrouped(body: seq<byte>, before: seq<byte>, u: seq<byte>, after: seq<byte>)
    requires body == before + u + after
    ensures MAGIC + body + [EOF] == (MAGIC + before) + u + (after + [EOF]) && |MAGIC + before| >= 9
  {
  }

  // ---- Files that are cut off ----

  lemma RecordsOfPart(p: seq<byte>, t: seq<byte>, env: Env, d: Table<RdbEntry>, foot: seq<byte>)
    requires |p| >= 9 && LoadRecords((p + t)[9..], map[], 0, env) == Some(Loaded(d, foot))
    requires LoadRecords(p[9..], map[], 0, env).Some?
    ensures var l := LoadRecords(p[9..], map[], 0, env).value; |l.rest| + |t| == |foot|
  {
    hide *;
    var q := p[9..];
    assert (p + t)[9..] == q + t;
    RecordsOn(q, map[], 0, env, t);
    assert |LoadRecords(q, map[], 0, env).value.rest + t| == |foot|;
  }

  lemma ShortFooterRefused(p: seq<byte>, env: Env)
    requires |p| >= 9 && Strtoll(p[5..9]).0 == 6 && env.checksum
    requires LoadRecords(p[9..], map[], 0, env).Some? ==> |LoadRecords(p[9..], map[], 0, env).value.rest| < 8
    ensures LoadFile(p, env) == None
  {
    hide LoadRecords, Strtoll, Footer, Crc64.Divide;
  }

  /** A saved file that is cut off anywhere is refused when checksums are looked at. */
  lemma TruncatedFileRefused(dbs: Databases, now: int, body: seq<byte>, foot: seq<byte>, p: seq<byte>, t: seq<byte>,
                             env: Env)
    requires DbsSaved(dbs, |dbs|, now, body) && WellFormed(dbs) && |dbs| <= env.dbnum && |foot| == 8
    requires p + t == MAGIC + body + [EOF] + foot && t != [] && env.checksum
    ensures LoadFile(p, env) == None
  {
    MagicIsCurrent();
    FileParts(p + t, body, foot);
    if |p| >= 9 {
      assert p[5..9] == (p + t)[5..9];
      hide *;
      var d, db := DbsLoad(dbs, |dbs|, now, body, [EOF] + foot, env);
      EndLoads(foot, d, db, env);
      if LoadRecords(p[9..], map[], 0, env).Some? { RecordsOfPart(p, t, env, d, foot); }
      ShortFooterRefused(p, env);
    }
  }

  // ---- Files of earlier versions ----

  lemma VersionDigit(v: nat)
    requires v < 10
    ensures Strtoll([48, 48, 48, 48 + v]).0 == v
  {
    var s: seq<byte> := [48, 48, 48, 48 + v];
    var s1: seq<byte>, s2: seq<byte>, s3: seq<byte> := [48, 48, 48 + v], [48, 48 + v], [48 + v];
    assert s[1..] == s1 && s1[1..] == s2 && s2[1..] == s3 && s3[1..] == [];
    assert SpanDigits(s3) == 1 && SpanDigits(s2) == 2 && SpanDigits(s1) == 3 && SpanDigits(s) == 4;
    assert SkipSpaces(s) == 0 && s[0..] == s && s[..4] == s;
    LastDigit(v);
    LeadingZero(s3);
    LeadingZero(s2);
    LeadingZero(s1);
    assert s == [48] + s1 && s1 == [48] + s2 && s2 == [48] + s3;
    hide Accumulate;
  }

  lemma LastDigit(v: nat)
    requires v < 10
    ensures Accumulate([48 + v], 0) == v
  {
    var s: seq<byte> := [48 + v];
    assert s[1..] == [];
    assert Accumulate([], v) == v;
  }

  lemma LeadingZero(s: seq<byte>)
    requires AllDigits(s)
    ensures AllDigits([48] + s) && Accumulate([48] + s, 0) == Accumulate(s, 0)
  {
    assert ([48] + s)[1..] == s;
  }

  lemma OldHeader(file: seq<byte>, v: nat, body: seq<byte>, rest: seq<byte>)
    requires 1 <= v < 5 && file == MAGIC[..5] + [48, 48, 48, 48 + v] + body + [EOF] + rest
    ensures |file| >= 9 && file[..5] == MAGIC[..5] && Strtoll(file[5..9]).0 == v && file[9..] == body + ([EOF] + rest)
  {
    VersionDigit(v);
    assert |MAGIC[..5]| == 5 && file[5..9] == [48, 48, 48, 48 + v];
    hide Strtoll;
  }

  lemma OldFileIs(file: seq<byte>, env: Env, d: Table<RdbEntry>, rest: seq<byte>)
    requires |file| >= 9 && file[..5] == MAGIC[..5] && 1 <= Strtoll(file[5..9]).0 < 5
    requires LoadRecords(file[9..], map[], 0, env) == Some(Loaded(d, rest))
    ensures LoadFile(file, env) == Some(d)
  {
    hide LoadRecords, Strtoll, Footer, Crc64.Divide;
  }

  /** A file of versions 1 to 4 has no checksum and may be followed by anything. */
  lemma OldFileLoads(dbs: Databases, now: int, v: nat, body: seq<byte>, rest: seq<byte>, env: Env)
    requires 1 <= v < 5 && DbsSaved(dbs, |dbs|, now, body) && WellFormed(dbs) && |dbs| <= env.dbnum
    ensures var r := LoadFile(MAGIC[..5] + [48, 48, 48, 48 + v] + body + [EOF] + rest, env);
            r.Some? && IsLive(r.value, dbs, KeyOf, LoadedAt(now, env))
  {
    var file := MAGIC[..5] + [48, 48, 48, 48 + v] + body + [EOF] + rest;
    hide *;
    OldHeader(file, v, body, rest);
    var d, db := DbsLoad(dbs, |dbs|, now, body, [EOF] + rest, env);
    EndLoads(rest, d, db, env);
    OldFileIs(file, env, d, rest);
    LiveAll(d, dbs, now, env);
  }

  /** Other headers are refused. */
  lemma HeaderNeeded(file: seq<byte>, env: Env)
    requires LoadFile(file, env).Some?
    ensures |file| >= 9 && file[..5] == MAGIC[..5] && 1 <= Strtoll(file[5..9]).0 <= 6
  {
    hide LoadRecords, Strtoll, Footer, Crc64.Divide;
  }

  lemma SecondsBytes(t: int, kind: byte, rest: seq<byte>)
    ensures var s := [EXPIRETIME] + LeBytes(t, 4) + [kind] + rest;
            |s| >= 6 && s[0] == EXPIRETIME && s[1..5] == LeBytes(t, 4) && s[5] == kind && s[6..] == rest
  {
    hide LeBytes;
  }

  /** A deadline in seconds, as the first versions wrote it; -1 reads as an error. */
  lemma SecondsLoad(t: int, kind: byte, rest: seq<byte>)
    requires -0x8000_0000 <= t < 0x8000_0000
    ensures LoadOpcode([EXPIRETIME] + LeBytes(t, 4) + [kind] + rest)
         == if t == -1 then None else Some(Opcode(kind, t * 1000, rest))
  {
    Widths();
    SignedRoundTrip(t, 4, 0x8000_0000, []);
    SecondsBytes(t, kind, rest);
    hide LeBytes, FromLe, Pow256, Signed;
  }

  /** A pair with such a deadline loads like one with the deadline in milliseconds. */
  lemma OldDeadlineLoads(r: RdbRow, t: int, k: seq<byte>, v: seq<byte>, tail: seq<byte>, d: Table<RdbEntry>, db: int,
                         saved: int, env: Env)
    requires RowOk(r) && (db, r.key) !in d && RawSaved(r.key, k) && ObjSaved(r.obj, v)
    requires r.expire == t * 1000 >= saved && -0x8000_0000 <= t < 0x8000_0000 && t != -1
    ensures LoadRecords([EXPIRETIME] + LeBytes(t, 4) + [TypeOf(r.obj)] + (k + (v + tail)), d, db, env)
         == LoadRecords(tail, WithRow(d, db, r, KeyOf, LoadedAt(saved, env)), db, env)
  {
    assert ObjOk(r.obj);
    hide ObjOk, RowOk, RdbValueOf, LoadRecords, LoadPair, LoadOpcode, LeBytes, TypeOf, RawSaved, ObjSaved;
    var s, kind := [EXPIRETIME] + LeBytes(t, 4) + [TypeOf(r.obj)] + (k + (v + tail)), TypeOf(r.obj);
    SecondsLoad(t, kind, k + (v + tail));
    TypeIsSmall(r.obj);
    PairLoads(r, k, v, tail);
    RecordStep(s, d, db, env, Opcode(kind, t * 1000, k + (v + tail)), Loaded((r.key, RdbValueOf(r.obj)), tail));
  }

  // ---- Records that do not fit together ----

  /** A database that the server does not have. */
  lemma UnknownDatabaseRefused(n: nat, rest: seq<byte>, d: Table<RdbEntry>, db: int, env: Env)
    requires env.dbnum <= n < LENERR
    ensures LoadRecords([SELECTDB] + (SaveLen(n) + rest), d, db, env) == None
  {
    var s := [SELECTDB] + (SaveLen(n) + rest);
    assert s[1..] == SaveLen(n) + rest;
    LengthRoundTrip(n, rest);
    hide SaveLen, LoadLen, LoadPair;
  }

  /** A key that is there already, unless it is skipped because its deadline has passed. */
  lemma DuplicateRefused(r: RdbRow, saved: int, bytes: seq<byte>, tail: seq<byte>, d: Table<RdbEntry>, db: int,
                         env: Env)
    requires RowSaved(r, saved, bytes) && RowOk(r) && (db, r.key) in d && LoadedAt(saved, env)(r).Some?
    ensures LoadRecords(bytes + tail, d, db, env) == None
  {
    assert ObjOk(r.obj) && LLONG_MIN <= r.expire <= LLONG_MAX;
    hide ObjOk, RowOk, RowSaved, RdbValueOf, LoadPair, LoadOpcode, DeadlineSaved, TypeOf, RawSaved, ObjSaved;
    var k, v := RowParts(r, saved, bytes, tail);
    TypeIsSmall(r.obj);
    OpcodeLoads(r.expire, TypeOf(r.obj), k + (v + tail));
    PairLoads(r, k, v, tail);
    RefusedStep(bytes + tail, d, db, env, Opcode(TypeOf(r.obj), r.expire, k + (v + tail)),
                Loaded((r.key, RdbValueOf(r.obj)), tail));
  }

  lemma RefusedStep(s: seq<byte>, d: Table<RdbEntry>, db: int, env: Env, op: Opcode, p: Loaded<(seq<byte>, RdbValue)>)
    requires LoadOpcode(s) == Some(op) && op.kind < 250 && LoadPair(op) == Some(p) && (db, p.value.0) in d
    requires env.slave || op.expire == -1 || op.expire >= env.now
    ensures LoadRecords(s, d, db, env) == None
  {
    hide LoadOpcode, LoadPair;
  }

  /** A special encoding of a string other than the four there are. */
  lemma UnknownEncodingRefused(n: nat, rest: seq<byte>)
    requires 4 <= n < 64
    ensures LoadString([192 + n] + rest) == None
  {
    var s: seq<byte> := [192 + n] + rest;
    assert s[0] as int / 64 == 3 && s[0] as int % 64 == n;
    assert LoadLen(s) == Some(Length(n, true, s[1..]));
  }

  /** A field that the hash has already. */
  lemma DuplicateFieldRefused(f: seq<byte>, k: seq<byte>, v: seq<byte>, value: seq<byte>, count: nat,
                              acc: map<seq<byte>, seq<byte>>, tail: seq<byte>)
    requires f in acc && RawSaved(f, k) && RawSaved(value, v) && |f| < LENERR && |value| < LENERR
    ensures LoadFields(k + (v + tail), count + 1, acc) == None
  {
    RawRoundTrip(f, k, v + tail);
    RawRoundTrip(value, v, tail);
    hide LoadString, RawSaved;
  }
}
