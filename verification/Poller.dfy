/** The poller's socket list (src/poller.c): two arrays kept in step, removal that swaps the last socket
    into the gap, and a callback run for each socket that may remove the socket it was called for. */
module Poller {

  /** A socket and what it is polled for: the entries of socks and fds at one index. */
  datatype Entry = Entry(sock: int, events: int)

  /** What swap-removal leaves of a list. */
  function SwapRemoved(s: seq<Entry>, i: nat): seq<Entry>
    requires i < |s|
  {
    s[i := s[|s| - 1]][..|s| - 1]
  }

  lemma SwapRemovedBag(s: seq<Entry>, i: nat)
    requires i < |s|
    ensures multiset(SwapRemoved(s, i)) == multiset(s) - multiset{s[i]}
    ensures SwapRemoved(s, i)[..i] == s[..i]
  {
    var n, u := |s| - 1, s[i := s[|s| - 1]];
    assert u == u[..n] + [s[n]];
    assert multiset(u) == multiset(s) - multiset{s[i]} + multiset{s[n]};
    Cancel(multiset(u[..n]), multiset(s) - multiset{s[i]}, multiset{s[n]});
  }

  lemma Cancel(a: multiset<Entry>, b: multiset<Entry>, c: multiset<Entry>)
    requires a + c == b + c
    ensures a == b
  {
    assert forall z :: (a + c)[z] == a[z] + c[z] && (b + c)[z] == b[z] + c[z];
  }

  function Reversed(s: seq<Entry>): seq<int> { if s == [] then [] else [s[|s| - 1].sock] + Reversed(s[..|s| - 1]) }

  /** The entries that stay, with multiplicities. */
  function Kept(s: seq<Entry>, closes: int -> bool): multiset<Entry> {
    if s == [] then multiset{}
    else (if closes(s[0].sock) then multiset{} else multiset{s[0]}) + Kept(s[1..], closes)
  }

  predicate Distinct(s: seq<Entry>) { forall i, j :: 0 <= i < j < |s| ==> s[i].sock != s[j].sock }

  class Poller {
    var count: nat
    var fds: array<int>
    var socks: array<int>
    var freeIdx: nat

    ghost predicate Valid()
      reads this
    {
      freeIdx <= count <= socks.Length && count <= fds.Length && 0 < count && socks != fds
    }

    ghost function Contents(): (c: seq<Entry>)
      requires Valid()
      reads this, socks, fds
      ensures |c| == freeIdx && forall i :: 0 <= i < freeIdx ==> c[i] == Entry(socks[i], fds[i])
    {
      seq(freeIdx, i requires 0 <= i < freeIdx reads this, socks, fds requires Valid() => Entry(socks[i], fds[i]))
    }

    constructor (count: nat)
      requires count > 0
      ensures Valid() && Contents() == [] && fresh(socks) && fresh(fds)
    {
      fds, socks, freeIdx := new int[count], new int[count], 0;
      this.count := count;
    }

    /** Both arrays double, one after the other; either may be refused for lack of memory. */
    method Double(growFds: bool, growSocks: bool) returns (ok: bool)
      requires Valid()
      modifies this
      ensures Valid() && freeIdx == old(freeIdx) && (socks == old(socks) || fresh(socks)) && (fds == old(fds) || fresh(fds))
      ensures ok == (growFds && growSocks) && count == (if ok then 2 * old(count) else old(count))
      ensures Contents() == old(Contents())
    {
      ok := false;
      var n := 2 * count;
      if growFds {
        fds := Grown(fds, count, n);
        if growSocks {
          socks := Grown(socks, count, n);
          count := n;
          ok := true;
        }
      }
    }

    /** poller_add: the arrays double when they are full. If that fails, the list is as it was. */
    method Add(sock: int, events: int, growFds: bool, growSocks: bool) returns (ok: bool)
      requires Valid()
      modifies this, socks, fds
      ensures Valid() && (socks == old(socks) || fresh(socks)) && (fds == old(fds) || fresh(fds))
      ensures ok <==> old(freeIdx < count) || (growFds && growSocks)
      ensures Contents() == if ok then old(Contents()) + [Entry(sock, events)] else old(Contents())
    {
      ok := true;
      if freeIdx == count {
        ok := Double(growFds, growSocks);
      }
      if ok {
        fds[freeIdx] := events;
        socks[freeIdx] := sock;
        freeIdx := freeIdx + 1;
      }
    }

    /** poller_remove. */
    method Remove(sock: int) returns (found: bool)
      requires Valid()
      modifies this`freeIdx, socks, fds
      ensures Valid() && found == exists i :: 0 <= i < |old(Contents())| && old(Contents())[i].sock == sock
      ensures !found ==> Contents() == old(Contents())
      ensures found ==> exists i :: 0 <= i < |old(Contents())| && old(Contents())[i].sock == sock && Contents() == SwapRemoved(old(Contents()), i)
    {
      ghost var before := Contents();
      var i: nat := 0;
      while i < freeIdx
        invariant i <= freeIdx && forall k :: 0 <= k < i ==> socks[k] != sock
      {
        if socks[i] == sock {
          var j := freeIdx - 1;
          if i != j {
            fds[i] := fds[j];
            socks[i] := socks[j];
          }
          freeIdx := freeIdx - 1;
          assert before[i].sock == sock && Contents() == SwapRemoved(before, i);
          return true;
        }
        i := i + 1;
      }
      return false;
    }

    /** poller_process with a callback that removes its own socket when `closes` says so and fails when
        `fails` does, which ends the walk. Sockets are visited once each, from the last to the first,
        as far as the walk goes; exactly those visited and closed are gone. */
    method Process(closes: int -> bool, fails: int -> bool) returns (ok: bool, visited: seq<int>)
      requires Valid() && Distinct(Contents())
      modifies this`freeIdx, socks, fds
      ensures Valid() && Walked(old(Contents()), Contents(), ok, visited, closes, fails)
    {
      hide Going, Walked;
      ghost var start := Contents();
      visited, ok := [], true;
      var i: nat := freeIdx;
      Begins(start, closes);
      while i > 0
        invariant Valid() && Going(start, Contents(), i, visited, closes)
        invariant forall k :: 0 <= k < |visited| ==> !fails(visited[k])
      {
        i := i - 1;
        ghost var c := Contents();
        Below(start, c, i, visited, closes);
        var sock := socks[i];
        if closes(sock) {
          var found := Remove(sock);
        }
        Visit(start, c, Contents(), i, visited, closes);
        visited := visited + [sock];
        if fails(sock) {
          ok := false;
          Ends(start, Contents(), i, visited, ok, closes, fails);
          return;
        }
      }
      Ends(start, Contents(), i, visited, ok, closes, fails);
    }
  }

  /** realloc to n elements, of which the first `used` matter. */
  method Grown(a: array<int>, used: nat, n: nat) returns (b: array<int>)
    requires used <= a.Length && used <= n
    ensures fresh(b) && b.Length == n && forall j :: 0 <= j < used ==> b[j] == a[j]
  {
    b := new int[n];
    for j := 0 to used
      invariant forall i :: 0 <= i < j ==> b[i] == a[i]
    {
      b[j] := a[j];
    }
  }

  /** Before index i is visited: below i nothing has moved, and from i on exactly those stay that stay. */
  ghost predicate Going(start: seq<Entry>, c: seq<Entry>, i: nat, visited: seq<int>, closes: int -> bool) {
    && i <= |c| && i <= |start| && c[..i] == start[..i] && Distinct(c) && |visited| == |start| - i
    && multiset(c[i..]) == Kept(start[i..], closes)
    && visited + Reversed(start[..i]) == Reversed(start)
  }

  /** The walk visited the last sockets of the list, from the last one on, until one failed or none was
      left, and exactly those visited and closed are gone. */
  ghost predicate Walked(start: seq<Entry>, c: seq<Entry>, ok: bool, visited: seq<int>, closes: int -> bool, fails: int -> bool) {
    && |visited| <= |start| && visited <= Reversed(start)
    && (if ok then |visited| == |start| else visited != [] && fails(visited[|visited| - 1]))
    && (forall k :: 0 <= k < |visited| - (if ok then 0 else 1) ==> !fails(visited[k]))
    && multiset(c) == multiset(start[..|start| - |visited|]) + Kept(start[|start| - |visited|..], closes)
  }

  lemma Begins(start: seq<Entry>, closes: int -> bool)
    requires Distinct(start)
    ensures Going(start, start, |start|, [], closes)
  {
    assert start[|start|..] == [] && start[..|start|] == start;
  }

  lemma Below(start: seq<Entry>, c: seq<Entry>, i: nat, visited: seq<int>, closes: int -> bool)
    requires Going(start, c, i + 1, visited, closes)
    ensures i < |c|
  {
  }

  lemma Visit(start: seq<Entry>, c: seq<Entry>, c': seq<Entry>, i: nat, visited: seq<int>, closes: int -> bool)
    requires Going(start, c, i + 1, visited, closes) && i < |c|
    requires if closes(c[i].sock) then exists k :: 0 <= k < |c| && c[k].sock == c[i].sock && c' == SwapRemoved(c, k) else c' == c
    ensures Going(start, c', i, visited + [c[i].sock], closes)
  {
    GoesOn(start, c, i, visited, closes);
    if closes(c[i].sock) { RemovedAt(c, c', i); }
  }

  lemma Ends(start: seq<Entry>, c: seq<Entry>, i: nat, visited: seq<int>, ok: bool, closes: int -> bool, fails: int -> bool)
    requires Going(start, c, i, visited, closes)
    requires if ok then i == 0 else visited != [] && fails(visited[|visited| - 1])
    requires forall k :: 0 <= k < |visited| - (if ok then 0 else 1) ==> !fails(visited[k])
    ensures Walked(start, c, ok, visited, closes, fails)
  {
    assert c == c[..i] + c[i..];
    assert visited == Reversed(start)[..|visited|];
  }

  lemma GoesOn(start: seq<Entry>, c: seq<Entry>, i: nat, visited: seq<int>, closes: int -> bool)
    requires Going(start, c, i + 1, visited, closes)
    ensures c[i] == start[i] && c[..i] == start[..i]
    ensures visited + [c[i].sock] + Reversed(start[..i]) == Reversed(start)
    ensures Kept(start[i..], closes) == if closes(c[i].sock) then multiset(c[i + 1..]) else multiset(c[i..])
  {
    assert c[i] == c[..i + 1][i] == start[..i + 1][i] == start[i];
    assert start[..i + 1][..i] == start[..i] && c[..i + 1][..i] == c[..i];
    KeptStep(start, c, i, closes);
  }

  lemma KeptStep(start: seq<Entry>, c: seq<Entry>, i: nat, closes: int -> bool)
    requires i < |start| && i < |c| && c[i] == start[i] && multiset(c[i + 1..]) == Kept(start[i + 1..], closes)
    ensures Kept(start[i..], closes) == if closes(c[i].sock) then multiset(c[i + 1..]) else multiset(c[i..])
  {
    assert start[i..][1..] == start[i + 1..];
    assert c[i..] == [c[i]] + c[i + 1..];
  }

  /** Removing the socket at i from a list without repetitions. */
  lemma RemovedAt(c: seq<Entry>, c': seq<Entry>, i: nat)
    requires Distinct(c) && i < |c|
    requires exists k :: 0 <= k < |c| && c[k].sock == c[i].sock && c' == SwapRemoved(c, k)
    ensures |c'| == |c| - 1 && c'[..i] == c[..i] && multiset(c'[i..]) == multiset(c[i + 1..]) && Distinct(c')
  {
    var k :| 0 <= k < |c| && c[k].sock == c[i].sock && c' == SwapRemoved(c, k);
    assert k == i;
    SwapDistinct(c, i);
    hide Distinct;
    SwapRemovedBag(c, i);
    BagTail(c, c', i);
  }

  lemma SwapDistinct(c: seq<Entry>, i: nat)
    requires Distinct(c) && i < |c|
    ensures Distinct(SwapRemoved(c, i))
  {
    var c' := SwapRemoved(c, i);
    assert forall j :: 0 <= j < |c'| ==> c'[j] == c[if j == i then |c| - 1 else j];
  }

  lemma BagTail(c: seq<Entry>, c': seq<Entry>, i: nat)
    requires i < |c| && i <= |c'| && c'[..i] == c[..i] && multiset(c') == multiset(c) - multiset{c[i]}
    ensures multiset(c'[i..]) == multiset(c[i + 1..])
  {
    assert c == c[..i] + [c[i]] + c[i + 1..];
    assert c' == c'[..i] + c'[i..];
    var a, b, h := multiset(c'[i..]), multiset(c[i + 1..]), multiset(c[..i]);
    assert multiset(c) == h + multiset{c[i]} + b;
    assert multiset(c) - multiset{c[i]} == h + b;
    assert a + h == h + a && b + h == h + b;
    Cancel(a, b, h);
  }

  lemma {:induction false} KeptNone(s: seq<Entry>, closes: int -> bool)
    requires forall i :: 0 <= i < |s| ==> closes(s[i].sock)
    ensures Kept(s, closes) == multiset{}
  {
    if s != [] { KeptNone(s[1..], closes); }
  }

  /** Teardown (src/sender.c:476-494): closing every socket empties the poller. */
  method CloseAll(p: Poller) returns (closed: seq<int>)
    requires p.Valid() && Distinct(p.Contents())
    modifies p`freeIdx, p.socks, p.fds
    ensures p.Valid() && p.Contents() == [] && closed == Reversed(old(p.Contents()))
  {
    ghost var start := p.Contents();
    var ok;
    ok, closed := p.Process(_ => true, _ => false);
    KeptNone(start, _ => true);
    ReversedLength(start);
    assert start[..0] == [] && start[0..] == start;
    assert |multiset(p.Contents())| == |p.Contents()|;
  }

  lemma {:induction false} ReversedLength(s: seq<Entry>)
    ensures |Reversed(s)| == |s|
  {
    if s != [] { ReversedLength(s[..|s| - 1]); }
  }
}
