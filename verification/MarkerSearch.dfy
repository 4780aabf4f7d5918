/** Hashing a file piece by piece while looking for a marker in it (HashLocalFile in
    common/n02_update.cpp). */
module MarkerSearch {
  import opened Bytes

  const CHUNK_SIZE := 0x4_0000

  ghost predicate OccursAt(s: seq<byte>, m: seq<byte>, i: int) {
    0 <= i && i + |m| <= |s| && s[i..i + |m|] == m
  }

  ghost predicate Occurs(s: seq<byte>, m: seq<byte>) {
    exists i :: OccursAt(s, m, i)
  }

  /** The last n elements, or all if there are fewer. */
  function LastBytes(s: seq<byte>, n: nat): (r: seq<byte>)
    ensures |r| == Min(n, |s|)
  {
    s[|s| - Min(n, |s|)..]
  }

  lemma OccursInPart(s: seq<byte>, t: seq<byte>, m: seq<byte>, off: nat, i: int)
    requires off + |t| <= |s| && s[off..off + |t|] == t && 0 <= i && i + |m| <= |t|
    ensures OccursAt(t, m, i) <==> OccursAt(s, m, off + i)
  {
    var part := s[off..off + |t|];
    assert forall k :: i <= k < i + |m| ==> part[k] == s[off + k];
    assert part[i..i + |m|] == s[off + i..off + i + |m|];
  }

  /** A marker that is not in what was read before is in what has been read now exactly when it is in the
      new chunk with one byte less than the marker's length carried over before it. */
  lemma CarryFindsStraddlers(before: seq<byte>, chunk: seq<byte>, m: seq<byte>)
    requires |m| > 0
    ensures Occurs(before + chunk, m) <==> Occurs(before, m) || Occurs(LastBytes(before, |m| - 1) + chunk, m)
  {
    var all, window := before + chunk, LastBytes(before, |m| - 1) + chunk;
    var off := |all| - |window|;
    assert all[off..off + |window|] == window;
    assert all[0..0 + |before|] == before;
    if i :| OccursAt(before, m, i) {
      OccursInPart(all, before, m, 0, i);
    }
    if i :| OccursAt(window, m, i) {
      OccursInPart(all, window, m, off, i);
    }
    if i :| OccursAt(all, m, i) {
      if i + |m| <= |before| {
        OccursInPart(all, before, m, 0, i);
        assert OccursAt(before, m, i);
      } else {
        OccursInPart(all, window, m, off, i - off);
        assert OccursAt(window, m, i - off);
      }
    }
  }

  lemma CarryIsLastBytes(before: seq<byte>, chunk: seq<byte>, n: nat)
    ensures LastBytes(LastBytes(before, n) + chunk, n) == LastBytes(before + chunk, n)
  {
  }

  lemma OccursStarts(s: seq<byte>, m: seq<byte>, i: int)
    requires OccursAt(s, m, i) && |m| > 0
    ensures s[i] == m[0]
  {
    assert s[i..i + |m|][0] == s[i];
  }

  /** memchr: the first place from p on where c stands, or have. */
  method MemChr(buf: array<byte>, p: nat, have: nat, c: byte) returns (q: nat)
    requires p <= have <= buf.Length
    ensures p <= q <= have && (q < have ==> buf[q] == c) && forall i :: p <= i < q ==> buf[i] != c
  {
    q := p;
    while q < have && buf[q] != c
      invariant p <= q <= have && forall i :: p <= i < q ==> buf[i] != c
    {
      q := q + 1;
    }
  }

  /** The search of the first `have` bytes of the buffer. */
  method Search(buf: array<byte>, have: nat, marker: seq<byte>) returns (found: bool)
    requires have <= buf.Length && |marker| > 0
    ensures found <==> Occurs(buf[..have], marker)
  {
    ghost var s := buf[..have];
    var p := 0;
    while p + |marker| <= have
      invariant p <= have && forall i :: OccursAt(s, marker, i) ==> p <= i
    {
      var q := MemChr(buf, p, have, marker[0]);
      forall i | OccursAt(s, marker, i)
        ensures q <= i
      {
        OccursStarts(s, marker, i);
      }
      if q == have || q + |marker| > have {
        return false;
      }
      assert s[q..q + |marker|] == buf[q..q + |marker|];
      if buf[q..q + |marker|] == marker {
        assert OccursAt(s, marker, q);
        return true;
      }
      assert !OccursAt(s, marker, q);
      p := q + 1;
    }
    return false;
  }

  /** One ReadFile: what it put into the buffer, or an error. The end of the file is the end of the list. */
  datatype Read = Got(bytes: seq<byte>) | Error

  function Gathered(pieces: seq<Read>): seq<byte> {
    if pieces == [] then []
    else Gathered(pieces[..|pieces| - 1]) + match pieces[|pieces| - 1] case Got(b) => b case Error => []
  }

  lemma GatheredNext(pieces: seq<Read>, i: nat)
    requires i < |pieces| && pieces[i].Got?
    ensures Gathered(pieces[..i + 1]) == Gathered(pieces[..i]) + pieces[i].bytes
  {
    assert pieces[..i + 1][..i] == pieces[..i];
  }

  method Fill(buf: array<byte>, carry: nat, bytes: seq<byte>)
    requires carry + |bytes| <= buf.Length
    modifies buf
    ensures buf[..carry] == old(buf[..carry]) && buf[carry..carry + |bytes|] == bytes
  {
    for i := 0 to |bytes|
      invariant buf[..carry] == old(buf[..carry]) && buf[carry..carry + i] == bytes[..i]
    {
      buf[carry + i] := bytes[i];
      assert buf[carry..carry + i + 1] == buf[carry..carry + i] + [bytes[i]];
    }
  }

  /** memmove of the last n of the first `have` bytes to the front. */
  method KeepLast(buf: array<byte>, have: nat, n: nat)
    requires n <= have <= buf.Length
    modifies buf
    ensures buf[..n] == LastBytes(old(buf[..have]), n)
  {
    for i := 0 to n
      invariant buf[..i] == old(buf[have - n..have - n + i])
      invariant forall j :: i <= j < buf.Length ==> buf[j] == old(buf[j])
    {
      buf[i] := buf[have - n + i];
    }
  }

  /** What the search knows after some bytes of the file: whether the marker is in them, and their end. */
  ghost predicate Searched(kept: seq<byte>, found: bool, marker: seq<byte>, before: seq<byte>) {
    && marker != [] && kept == LastBytes(before, |marker| - 1)
    && (found <==> Occurs(before, marker))
  }

  lemma SearchedNext(kept: seq<byte>, found: bool, marker: seq<byte>, before: seq<byte>, got: seq<byte>,
                     kept': seq<byte>, found': bool)
    requires Searched(kept, found, marker, before)
    requires found' <==> found || Occurs(kept + got, marker)
    requires kept' == LastBytes(kept + got, |marker| - 1)
    ensures Searched(kept', found', marker, before + got)
  {
    CarryFindsStraddlers(before, got, marker);
    CarryIsLastBytes(before, got, |marker| - 1);
  }

  /** Searches one chunk behind what was carried over, and carries over the end of it. */
  method TakeChunk(buf: array<byte>, carry: nat, got: seq<byte>, marker: seq<byte>, found: bool,
                   ghost before: seq<byte>)
    returns (carried: nat, nowFound: bool, fed: seq<byte>)
    requires buf.Length == CHUNK_SIZE + |marker| && |got| <= CHUNK_SIZE
    requires carry < |marker| && Searched(buf[..carry], found, marker, before)
    modifies buf
    ensures carried < |marker| && Searched(buf[..carried], nowFound, marker, before + got)
    ensures fed == got
  {
    ghost var kept := buf[..carry];
    Fill(buf, carry, got);
    var have := carry + |got|;
    fed := buf[carry..have];
    assert buf[..have] == kept + got;
    nowFound := found;
    if !found {
      nowFound := Search(buf, have, marker);
    }
    carried := if have < |marker| - 1 then have else |marker| - 1;
    KeepLast(buf, have, carried);
    SearchedNext(kept, found, marker, before, got, buf[..carried], nowFound);
  }

  /** However the reads split the file, the marker is reported found exactly when it occurs in the whole
      file, and the bytes handed to the hash are the file. */
  method HashLocalFile(pieces: seq<Read>, marker: seq<byte>)
    returns (ok: bool, found: bool, hashed: seq<byte>, total: nat)
    requires forall i :: 0 <= i < |pieces| ==> pieces[i].Got? ==> 0 < |pieces[i].bytes| <= CHUNK_SIZE
    ensures ok <==> forall i :: 0 <= i < |pieces| ==> pieces[i].Got?
    ensures ok ==> hashed == Gathered(pieces) && total == |hashed|
    ensures ok && marker != [] ==> (found <==> Occurs(Gathered(pieces), marker))
    ensures marker == [] ==> !found
  {
    var buf := new byte[CHUNK_SIZE + |marker|](_ => 0);
    var carry: nat := 0;
    ok, found, hashed, total := true, false, [], 0;
    for i := 0 to |pieces|
      invariant ok && forall j :: 0 <= j < i ==> pieces[j].Got?
      invariant hashed == Gathered(pieces[..i]) && total == |hashed|
      invariant buf.Length == CHUNK_SIZE + |marker|
      invariant marker != [] ==> carry < |marker| && Searched(buf[..carry], found, marker, hashed)
      invariant marker == [] ==> !found
    {
      if pieces[i].Error? {
        ok := false;
        return;
      }
      var fed := pieces[i].bytes;
      if marker != [] {
        carry, found, fed := TakeChunk(buf, carry, pieces[i].bytes, marker, found, hashed);
      }
      GatheredNext(pieces, i);
      hashed := hashed + fed;
      total := total + |fed|;
    }
    assert pieces[..|pieces|] == pieces;
  }
}
