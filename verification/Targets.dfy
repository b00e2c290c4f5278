/** Fetching the list of targets page by page. */
module Targets {
  import opened Words
  import opened Errors

  const NUM_TARGET_MAX: nat := 64
  const MAX_PKT_SIZE: nat := 1024
  const INFO_SIZE: nat := 76
  const CMD_GET_TARGETS: byte := 0x86


  datatype Info = Info(bytes: seq<byte>)

  /** One reply: PL2 length, header, totals, and the entries that follow. */
  datatype Page = Page(len: nat, wl: byte, cmd: byte, err: byte, numTarget: byte, startIndex: byte, numNow: byte, infos: seq<Info>)

  function PageLen(numNow: nat): nat {
    12 + numNow * INFO_SIZE
  }

  /** Is the page the one asked for, and of the list known so far? start: the index asked for;
      known: number of targets, from the first page. */
  predicate Continues(start: nat, known: nat, p: Page) {
    && p.len == PageLen(p.numNow) && p.cmd == CMD_GET_TARGETS && p.wl as int == (p.len - 8) / 4
    && (p.err == PL_NO_ERROR || p.err == PL_SERVER_LOCKED)
    && p.startIndex as int == start
    && (start > 0 ==> (known < NUM_TARGET_MAX ==> p.numTarget as int == known) && start + p.numNow <= known)
  }

  /** The page a server sends for start: k entries of its list. */
  function PageOf(list: seq<Info>, start: nat, k: nat): Page
    requires start + k <= |list| < 256 && PageLen(k) <= MAX_PKT_SIZE
  {
    Page(PageLen(k), (PageLen(k) - 8) / 4, CMD_GET_TARGETS, PL_NO_ERROR, |list|, start, k, list[start..start + k])
  }

  /** A later page is accepted exactly if it starts where asked for, stays below the number of targets from
      the first page, and announces that number again; only that a first page of 64 or more is not compared. */
  lemma PageAccepted(list: seq<Info>, at: nat, k: nat, start: nat, known: nat)
    requires at + k <= |list| < 256 && PageLen(k) <= MAX_PKT_SIZE && 0 < start <= known <= NUM_TARGET_MAX
    ensures Continues(start, known, PageOf(list, at, k)) <==>
      at == start && start + k <= known && (known < NUM_TARGET_MAX ==> |list| == known)
  {}

  /** Which pages are taken at all. */
  lemma ContinuesExactly(start: nat, known: nat, p: Page)
    ensures Continues(start, known, p) <==>
      && p.len == 12 + 76 * p.numNow && p.cmd == 0x86 && 4 * p.wl == p.len - 8
      && (p.err == 0x08 || p.err == 0x32) && p.startIndex == start
      && (start == 0 || ((known >= 64 || p.numTarget == known) && start + p.numNow <= known))
  {}

  /** The page of a locked server, or one with another error, as the answer to start. */
  lemma ErrorPage(start: nat, known: nat, numTarget: byte, err: byte)
    requires start < 256 && start <= known <= NUM_TARGET_MAX && (start == 0 || known == NUM_TARGET_MAX || numTarget == known)
    ensures Continues(start, known, Page(12, 1, 0x86, err, numTarget, start, 0, [])) <==> err == 0x08 || err == 0x32
  {}

  /** Pages of a list with another length, where the page itself is the one asked for. */
  ghost predicate ChangedPage(list: seq<Info>, start: nat, k: nat, known: nat) {
    0 < start && start + k <= |list| < 256 && PageLen(k) <= MAX_PKT_SIZE && start + k <= known && |list| != known
  }

  /** A changed total is always refused exactly if the first page announced fewer than 64 targets. */
  lemma ChangedTotalExactly(known: nat)
    requires 1 < known <= NUM_TARGET_MAX
    ensures (forall list: seq<Info>, start: nat, k: nat :: ChangedPage(list, start, k, known) ==>
              !Continues(start, known, PageOf(list, start, k)))
      <==> known < NUM_TARGET_MAX
  {
    if known == NUM_TARGET_MAX {
      ChangedTotalAccepted();
    }
  }

  /** A list of 100 targets goes on with one first announced as 64. */
  lemma ChangedTotalAccepted()
    ensures var list := seq(100, _ => Info([])); ChangedPage(list, 13, 13, 64) && Continues(13, 64, PageOf(list, 13, 13))
  {}

  /** Do the pages from index i on end exactly at n? */
  predicate Hits(chunk: nat -> nat, i: nat, n: nat)
    requires forall j :: 0 <= j < n ==> chunk(j) > 0
    decreases n - i
  {
    i == n || (i < n && Hits(chunk, i + chunk(i), n))
  }

  /** How the server cuts its list: non-empty pages that fit a packet. */
  ghost predicate Pages(list: seq<Info>, chunk: nat -> nat) {
    && (forall i :: 0 <= i < |list| ==> 0 < chunk(i) && i + chunk(i) <= |list| && PageLen(chunk(i)) <= MAX_PKT_SIZE)
    && (list == [] ==> chunk(0) == 0)
  }

  lemma {:induction false} AllHit(list: seq<Info>, chunk: nat -> nat, i: nat)
    requires Pages(list, chunk) && i <= |list|
    ensures Hits(chunk, i, |list|)
    decreases |list| - i
  {
    if i < |list| {
      AllHit(list, chunk, i + chunk(i));
    }
  }

  lemma NextPage(list: seq<Info>, chunk: nat -> nat, start: nat, k: nat, known: nat)
    requires |list| < 256 && Pages(list, chunk) && start <= |list| && (start > 0 ==> start < |list|)
    requires k == if list == [] then 0 else chunk(start)
    requires start > 0 ==> known == Min(|list|, NUM_TARGET_MAX)
    ensures start + k <= |list| && PageLen(k) <= MAX_PKT_SIZE && (list != [] ==> k > 0)
    ensures Continues(start, known, PageOf(list, start, k)) <==> (start == 0 || start + k <= known)
  {}

  lemma PrefixGrows(before: seq<Info>, after: seq<Info>, list: seq<Info>, start: nat, k: nat)
    requires start + k <= |before| && start + k <= |list| && before[..start] == list[..start]
    requires after == before[..start] + list[start..start + k][..k] + before[start + k..]
    ensures after[..start + k] == list[..start + k]
  {
    assert list[..start + k] == list[..start] + list[start..start + k];
  }

  lemma HitNext(list: seq<Info>, chunk: nat -> nat, i: nat, n: nat)
    requires Pages(list, chunk) && n <= |list|
    ensures Hits(chunk, i, n) == (i == n || (i < n && Hits(chunk, i + chunk(i), n)))
  {}

  lemma HitOver(list: seq<Info>, chunk: nat -> nat, i: nat, n: nat)
    requires Pages(list, chunk) && n <= |list|
    ensures i >= n ==> (Hits(chunk, i, n) <==> i == n)
    ensures i < n && i + chunk(i) > n ==> !Hits(chunk, i, n)
    ensures i < n ==> chunk(i) > 0
  {}

  class TargetHandler {
    var startIndex: nat
    var numTarget: nat
    const targetInfo: array<Info>

    ghost predicate Valid()
      reads this
    {
      targetInfo.Length == NUM_TARGET_MAX && numTarget <= NUM_TARGET_MAX
    }

    constructor ()
      ensures Valid() && fresh(targetInfo)
    {
      startIndex, numTarget := 0, 0;
      targetInfo := new Info[NUM_TARGET_MAX](_ => Info([]));
    }

    method GetPktRqGetTargets(start: nat)
      modifies `startIndex
      ensures startIndex == start
    {
      startIndex := start;
    }

    /** Takes a reply. The number of targets is set by the first page only, and cut to 64. */
    method SetPktRspGetTargets(p: Page) returns (err: nat, total: nat, numNow: nat)
      requires Valid() && p.len <= MAX_PKT_SIZE && |p.infos| >= p.numNow as int
      modifies `numTarget, targetInfo
      ensures Valid()
      ensures var known := if startIndex == 0 then 0 else old(numTarget); var ok := Continues(startIndex, known, p);
        && err == (if !ok then 0x0200 else if p.err == 0x08 then 0 else 0x0210)
        && if err == ERR_NONE then
             && numTarget == total == (if startIndex == 0 then Min(p.numTarget, NUM_TARGET_MAX) else known) && numNow == p.numNow as int
             && startIndex + numNow <= NUM_TARGET_MAX
             && targetInfo[..] == old(targetInfo[..])[..startIndex] + p.infos[..numNow] + old(targetInfo[..])[startIndex + numNow..]
           else
             total == numNow == 0 && numTarget == known && targetInfo[..] == old(targetInfo[..])
    {
      total, numNow := 0, 0;
      if startIndex == 0 {
        numTarget := 0;
      }
      if p.len != PageLen(p.numNow) || p.cmd != CMD_GET_TARGETS || p.wl as int != (p.len - 8) / 4 {
        return ERR_SERVER_CON, total, numNow;
      }
      if p.err != PL_NO_ERROR && p.err != PL_SERVER_LOCKED {
        return ERR_SERVER_CON, total, numNow;
      }
      if p.startIndex as int != startIndex
        || (startIndex > 0 && numTarget < NUM_TARGET_MAX && p.numTarget as int != numTarget)
      {
        return ERR_SERVER_CON, total, numNow;
      }
      if p.startIndex != 0 && p.startIndex + p.numNow > numTarget {
        return ERR_SERVER_CON, total, numNow;
      }
      if p.err != PL_NO_ERROR {
        return ERR_SERVER_LOCKED, total, numNow;
      }
      if startIndex == 0 {
        numTarget := Min(p.numTarget, NUM_TARGET_MAX);
      }
      forall i | 0 <= i < p.numNow as int {
        targetInfo[startIndex + i] := p.infos[i];
      }
      return ERR_NONE, numTarget, p.numNow;
    }

    function GetTargetInfo(): seq<Info>
      requires Valid()
      reads this, targetInfo
    {
      targetInfo[..numTarget]
    }
  }

  /** One page, asked for and taken: the entries so far are a prefix of the list. */
  method FetchPage(h: TargetHandler, list: seq<Info>, chunk: nat -> nat, start: nat) returns (err: nat, total: nat, numNow: nat)
    requires h.Valid() && |list| < 256 && Pages(list, chunk) && start <= |list| && (start > 0 ==> start < |list|)
    requires start > 0 ==> h.numTarget == Min(|list|, NUM_TARGET_MAX)
    requires start <= NUM_TARGET_MAX && h.targetInfo[..][..start] == list[..start]
    modifies h, h.targetInfo
    ensures h.Valid()
    ensures var k := if list == [] then 0 else chunk(start); var n := Min(|list|, NUM_TARGET_MAX);
      if start == 0 || start + k <= n then
        && err == ERR_NONE && total == h.numTarget == n && numNow == k && start + k <= NUM_TARGET_MAX && start + k <= |list|
        && h.targetInfo[..][..start + k] == list[..start + k]
      else err == ERR_SERVER_CON
  {
    var k := if list == [] then 0 else chunk(start);
    NextPage(list, chunk, start, k, h.numTarget);
    h.GetPktRqGetTargets(start);
    ghost var before := h.targetInfo[..];
    err, total, numNow := h.SetPktRspGetTargets(PageOf(list, start, k));
    if err == ERR_NONE {
      PrefixGrows(before, h.targetInfo[..], list, start, k);
    }
  }

  /** The paging loop against a server with a fixed list: it ends, and returns the list in order, or its
      first 64 entries if it is longer and a page ends there; otherwise the page across 64 is refused. */
  method GetTargets(h: TargetHandler, list: seq<Info>, chunk: nat -> nat) returns (err: nat, info: seq<Info>)
    requires h.Valid() && |list| < 256 && Pages(list, chunk)
    modifies h, h.targetInfo
    ensures h.Valid()
    ensures var n := Min(|list|, NUM_TARGET_MAX);
      if Hits(chunk, 0, n) then err == ERR_NONE && info == list[..n] else err == ERR_SERVER_CON && info == []
    ensures |list| <= NUM_TARGET_MAX ==> err == ERR_NONE && info == list
  {
    ghost var n := Min(|list|, NUM_TARGET_MAX);
    if |list| <= NUM_TARGET_MAX {
      AllHit(list, chunk, 0);
    }
    var startIndex := 0;
    var numTarget, numNow;
    hide Pages, Hits;
    while true
      invariant h.Valid() && startIndex <= n && (startIndex > 0 ==> startIndex < n && h.numTarget == n)
      invariant Hits(chunk, startIndex, n) == Hits(chunk, 0, n)
      invariant h.targetInfo[..][..startIndex] == list[..startIndex]
      decreases n - startIndex
    {
      HitNext(list, chunk, startIndex, n);
      err, numTarget, numNow := FetchPage(h, list, chunk, startIndex);
      if err != ERR_NONE {
        HitOver(list, chunk, startIndex, n);
        return err, [];
      }
      startIndex := startIndex + numNow;
      if startIndex >= numTarget {
        HitOver(list, chunk, startIndex, n);
        break;
      }
    }
    return ERR_NONE, h.GetTargetInfo();
  }
}
