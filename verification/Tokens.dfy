/** `kstrtok` of kernel/memory/string.c: a tokenizer that keeps its place between calls and writes
    terminators into the string it reads. */
module Tokens {
  import opened Basics

  /** A zero byte lies at or after `i`, so a string starts there. */
  ghost predicate StringAt(b: seq<Byte>, i: nat) {
    exists z :: i <= z < |b| && b[z] == 0
  }

  lemma StringGoesOn(b: seq<Byte>, i: nat)
    requires StringAt(b, i) && b[i] != 0
    ensures StringAt(b, i + 1)
  {
    var z :| i <= z < |b| && b[z] == 0;
    assert i + 1 <= z;
  }

  /** The first byte at or after `i` that is no delimiter. */
  function Skip(b: seq<Byte>, i: nat, delim: seq<Byte>): (j: nat)
    requires StringAt(b, i) && 0 !in delim
    ensures i <= j < |b| && StringAt(b, j) && b[j] !in delim
    ensures forall k :: i <= k < j ==> b[k] in delim
    decreases |b| - i
  {
    if b[i] in delim then StringGoesOn(b, i); Skip(b, i + 1, delim) else i
  }

  /** The first delimiter or zero byte at or after `i`. */
  function TokenEnd(b: seq<Byte>, i: nat, delim: seq<Byte>): (j: nat)
    requires StringAt(b, i) && 0 !in delim
    ensures i <= j < |b| && StringAt(b, j) && (b[j] == 0 || b[j] in delim)
    ensures forall k :: i <= k < j ==> b[k] != 0 && b[k] !in delim
    decreases |b| - i
  {
    if b[i] == 0 || b[i] in delim then i else StringGoesOn(b, i); TokenEnd(b, i + 1, delim)
  }

  /** Where the next call goes on: at the zero byte that ended the token, or just after its delimiter. */
  function Resume(b: seq<Byte>, k: nat): nat
    requires k < |b|
  {
    if b[k] == 0 then k else k + 1
  }

  lemma ResumeIsString(b: seq<Byte>, k: nat)
    requires StringAt(b, k)
    ensures StringAt(b, Resume(b, k))
  {
    if b[k] != 0 {
      StringGoesOn(b, k);
    }
  }

  /** What one call on the string from `i` returns, leaves in the string, and remembers. */
  function Call(b: seq<Byte>, i: nat, delim: seq<Byte>): (Option<nat>, seq<Byte>, nat)
    requires StringAt(b, i) && 0 !in delim
  {
    var j := Skip(b, i, delim);
    if b[j] == 0 then (None, b, i)
    else
      var k := TokenEnd(b, j, delim);
      (Some(j), b[k := 0], Resume(b, k))
  }

  datatype Token = Token(start: nat, end: nat)

  /** The tokens that repeated calls find from `i` on. */
  ghost function AllTokens(b: seq<Byte>, i: nat, delim: seq<Byte>): seq<Token>
    requires StringAt(b, i) && 0 !in delim
    decreases |b| - i
  {
    var j := Skip(b, i, delim);
    if b[j] == 0 then []
    else
      var k := TokenEnd(b, j, delim);
      ResumeIsString(b, k);
      [Token(j, k)] + AllTokens(b, Resume(b, k), delim)
  }

  /** A maximal delimiter-free run of the string that starts at `i`: no delimiter and no zero byte inside,
      a delimiter or the beginning before it, a delimiter or the end after it. */
  ghost predicate MaximalRun(b: seq<Byte>, i: nat, delim: seq<Byte>, t: Token) {
    && i <= t.start < t.end < |b|
    && (forall k :: i <= k < t.start ==> b[k] != 0)
    && (forall k :: t.start <= k < t.end ==> b[k] != 0 && b[k] !in delim)
    && (t.start == i || b[t.start - 1] in delim)
    && (b[t.end] == 0 || b[t.end] in delim)
  }

  lemma {:induction false} TokensAreRuns(b: seq<Byte>, i: nat, delim: seq<Byte>, t: Token)
    requires StringAt(b, i) && 0 !in delim && t in AllTokens(b, i, delim)
    ensures MaximalRun(b, i, delim, t)
    decreases |b| - i
  {
    var j := Skip(b, i, delim);
    var k := TokenEnd(b, j, delim);
    ResumeIsString(b, k);
    if t != Token(j, k) {
      TokensAreRuns(b, Resume(b, k), delim, t);
      assert b[k] != 0;
    }
  }

  lemma {:induction false} RunsAreTokens(b: seq<Byte>, i: nat, delim: seq<Byte>, t: Token)
    requires StringAt(b, i) && 0 !in delim && MaximalRun(b, i, delim, t)
    ensures t in AllTokens(b, i, delim)
    decreases |b| - i
  {
    var j := Skip(b, i, delim);
    assert b[t.start] !in delim;
    var k := TokenEnd(b, j, delim);
    ResumeIsString(b, k);
    if t.start == j {
      assert k == t.end;
      assert t == AllTokens(b, i, delim)[0];
    } else {
      assert k < t.start;
      RunsAreTokens(b, Resume(b, k), delim, t);
      assert AllTokens(b, i, delim) == [Token(j, k)] + AllTokens(b, Resume(b, k), delim);
    }
  }

  function Offsets(ts: seq<Token>): (r: seq<nat>)
    ensures |r| == |ts|
  {
    seq(|ts|, n requires 0 <= n < |ts| => ts[n].start)
  }

  lemma OffsetsAppend(ts: seq<Token>, t: Token)
    ensures Offsets(ts + [t]) == Offsets(ts) + [t.start]
  {
  }

  /** The tokens in order: each ends before the next starts. */
  ghost predicate InOrder(ts: seq<Token>) {
    forall m, n :: 0 <= m < n < |ts| ==> ts[m].end < ts[n].start
  }

  lemma {:induction false} TokensInOrder(b: seq<Byte>, i: nat, delim: seq<Byte>)
    requires StringAt(b, i) && 0 !in delim
    ensures InOrder(AllTokens(b, i, delim))
    decreases |b| - i
  {
    var j := Skip(b, i, delim);
    if b[j] != 0 {
      var k := TokenEnd(b, j, delim);
      ResumeIsString(b, k);
      var rest := AllTokens(b, Resume(b, k), delim);
      TokensInOrder(b, Resume(b, k), delim);
      forall n | 0 <= n < |rest|
        ensures k < rest[n].start
      {
        assert rest[n] in rest;
        TokensAreRuns(b, Resume(b, k), delim, rest[n]);
      }
    }
  }

  /** Exactness: the tokens are the maximal delimiter-free runs of the string, all of them, in order. */
  lemma TokensExact(b: seq<Byte>, delim: seq<Byte>)
    requires StringAt(b, 0) && 0 !in delim
    ensures forall t :: t in AllTokens(b, 0, delim) <==> MaximalRun(b, 0, delim, t)
    ensures InOrder(AllTokens(b, 0, delim))
  {
    forall t
      ensures t in AllTokens(b, 0, delim) <==> MaximalRun(b, 0, delim, t)
    {
      if t in AllTokens(b, 0, delim) {
        TokensAreRuns(b, 0, delim, t);
      }
      if MaximalRun(b, 0, delim, t) {
        RunsAreTokens(b, 0, delim, t);
      }
    }
    TokensInOrder(b, 0, delim);
  }

  /** What lies from `i` on decides the tokens from `i` on. */
  lemma {:induction false} SameTail(a: seq<Byte>, b: seq<Byte>, i: nat, delim: seq<Byte>)
    requires |a| == |b| && StringAt(a, i) && 0 !in delim
    requires forall k :: i <= k < |a| ==> a[k] == b[k]
    ensures StringAt(b, i)
    ensures Skip(a, i, delim) == Skip(b, i, delim)
    ensures TokenEnd(a, i, delim) == TokenEnd(b, i, delim)
  {
    var z :| i <= z < |a| && a[z] == 0;
    assert b[z] == 0;
  }

  /** The string after its first tokens have been returned: their delimiters are zero bytes. */
  ghost predicate Terminated(was: seq<Byte>, now: seq<Byte>, ts: seq<Token>) {
    && |now| == |was|
    && (forall n :: 0 <= n < |ts| ==> ts[n].end < |was| && now[ts[n].end] == 0)
    && forall k :: 0 <= k < |was| && now[k] != was[k] ==> exists n :: 0 <= n < |ts| && ts[n].end == k
  }

  lemma TerminatedStep(was: seq<Byte>, now: seq<Byte>, ts: seq<Token>, t: Token)
    requires Terminated(was, now, ts) && t.end < |was|
    ensures Terminated(was, now[t.end := 0], ts + [t])
  {
    var now', ts' := now[t.end := 0], ts + [t];
    forall k | 0 <= k < |was| && now'[k] != was[k]
      ensures exists n :: 0 <= n < |ts'| && ts'[n].end == k
    {
      if k == t.end {
        assert ts'[|ts|].end == k;
      } else {
        var n :| 0 <= n < |ts| && ts[n].end == k;
        assert ts'[n].end == k;
      }
    }
  }

  /** Two strings that agree from `i` on. */
  ghost predicate SameFrom(a: seq<Byte>, b: seq<Byte>, i: nat) {
    |a| == |b| && StringAt(a, i) && StringAt(b, i) && forall k :: i <= k < |a| ==> a[k] == b[k]
  }

  /** A call on the partly terminated string finds the next token of the original one. */
  lemma NextToken(was: seq<Byte>, now: seq<Byte>, i: nat, delim: seq<Byte>)
    requires SameFrom(was, now, i) && 0 !in delim
    ensures var j := Skip(was, i, delim);
      && j == Skip(now, i, delim) && was[j] == now[j]
      && (was[j] == 0 ==> AllTokens(was, i, delim) == [])
      && (was[j] != 0 ==>
            var k := TokenEnd(was, j, delim);
            && k == TokenEnd(now, j, delim) && StringAt(was, Resume(was, k)) && Resume(was, k) == Resume(now, k)
            && AllTokens(was, i, delim) == [Token(j, k)] + AllTokens(was, Resume(was, k), delim)
            && SameFrom(was, now[k := 0], Resume(was, k)))
  {
    SameTail(was, now, i, delim);
    var j := Skip(was, i, delim);
    SameTail(was, now, j, delim);
    if was[j] != 0 {
      var k := TokenEnd(was, j, delim);
      ResumeIsString(was, k);
      SameTail(was, now[k := 0], Resume(was, k), delim);
    }
  }

  /** The calls so far have returned `taken`, terminated them, and go on at `i`. */
  ghost predicate Progress(was: seq<Byte>, now: seq<Byte>, i: nat, delim: seq<Byte>, taken: seq<Token>, all: seq<Token>)
    requires 0 !in delim
  {
    && SameFrom(was, now, i) && Terminated(was, now, taken)
    && all == taken + AllTokens(was, i, delim)
  }

  lemma TakeToken(was: seq<Byte>, now: seq<Byte>, t: Token, next: nat, delim: seq<Byte>, taken: seq<Token>,
                  rest: seq<Token>, all: seq<Token>)
    requires 0 !in delim && Terminated(was, now, taken) && t.end < |was|
    requires SameFrom(was, now[t.end := 0], next) && rest == AllTokens(was, next, delim)
    requires all == taken + ([t] + rest)
    ensures Progress(was, now[t.end := 0], next, delim, taken + [t], all)
  {
    TerminatedStep(was, now, taken, t);
    assert taken + ([t] + rest) == (taken + [t]) + rest;
  }

  lemma TakeNext(was: seq<Byte>, now: seq<Byte>, i: nat, delim: seq<Byte>, taken: seq<Token>, all: seq<Token>)
    requires 0 !in delim && Progress(was, now, i, delim, taken, all)
    ensures var (token, b, next) := Call(now, i, delim);
      if token.None? then taken == all
      else Progress(was, b, next, delim, taken + [Token(token.value, TokenEnd(now, token.value, delim))], all)
  {
    NextToken(was, now, i, delim);
    var j := Skip(now, i, delim);
    if now[j] != 0 {
      var k := TokenEnd(now, j, delim);
      var next := Resume(now, k);
      TakeToken(was, now, Token(j, k), next, delim, taken, AllTokens(was, next, delim), all);
    }
  }

  class Tokenizer {
    var str: array?<Byte>     // the static pointer: null, or a string and the place in it
    var pos: nat

    ghost predicate Valid()
      reads this, str
    {
      str != null ==> StringAt(str[..], pos)
    }

    /** No token is left: every later call returns null. */
    ghost predicate Exhausted(delim: seq<Byte>)
      requires Valid() && 0 !in delim
      reads this, str
    {
      str != null && str[Skip(str[..], pos, delim)] == 0
    }

    constructor ()
      ensures Valid() && str == null
    {
      str, pos := null, 0;
    }

    method IsDelim(c: Byte, delim: seq<Byte>) returns (r: bool)
      ensures r <==> c in delim
    {
      var i := 0;
      while i < |delim|
        invariant 0 <= i <= |delim|
        invariant c !in delim[..i]
      {
        if c == delim[i] {
          return true;
        }
        i := i + 1;
      }
      assert delim[..i] == delim;
      return false;
    }

    /** The first loop of `kstrtok`. */
    method SkipDelims(s: array<Byte>, at: nat, delim: seq<Byte>) returns (i: nat)
      requires 0 !in delim && StringAt(s[..], at)
      ensures i == Skip(s[..], at, delim)
    {
      i := at;
      while true
        invariant at <= i < s.Length && StringAt(s[..], i)
        invariant Skip(s[..], at, delim) == Skip(s[..], i, delim)
        decreases s.Length - i
      {
        var d := IsDelim(s[i], delim);
        if !d {
          break;
        }
        StringGoesOn(s[..], i);
        i := i + 1;
      }
    }

    /** The second loop of `kstrtok`. */
    method FindEnd(s: array<Byte>, start: nat, delim: seq<Byte>) returns (i: nat)
      requires 0 !in delim && StringAt(s[..], start)
      ensures i == TokenEnd(s[..], start, delim)
    {
      i := start;
      while s[i] != 0
        invariant start <= i < s.Length && StringAt(s[..], i)
        invariant TokenEnd(s[..], start, delim) == TokenEnd(s[..], i, delim)
        decreases s.Length - i
      {
        var d := IsDelim(s[i], delim);
        if d {
          break;
        }
        StringGoesOn(s[..], i);
        i := i + 1;
      }
    }

    /** The end of a token: its delimiter is turned into a zero byte and the place after it is remembered. */
    method EndToken(s: array<Byte>, end: nat)
      requires end < s.Length && StringAt(s[..], end)
      modifies this, s
      ensures Valid() && str == s && pos == Resume(old(s[..]), end) && s[..] == old(s[..])[end := 0]
    {
      ghost var b := s[..];
      if s[end] == 0 {
        str, pos := s, end;
      } else {
        StringGoesOn(b, end);
        ghost var z :| end + 1 <= z < |b| && b[z] == 0;
        s[end] := 0;
        str, pos := s, end + 1;
        assert s[..][z] == 0;
      }
    }

    /** One call.  `toTok` null means: go on in the string of the call before.  The result is the offset of
        the token; its end is turned into a zero byte and the next call starts after it.  When there is no
        token, nothing changes, not even the remembered place. */
    method KStrTok(toTok: array?<Byte>, delim: seq<Byte>) returns (r: Option<nat>)
      requires Valid() && 0 !in delim
      requires toTok != null ==> StringAt(toTok[..], 0)
      modifies this, toTok, str
      ensures Valid()
      ensures toTok == null && old(str) == null ==> r == None && str == null && pos == old(pos)
      ensures var s, i := if toTok != null then toTok else old(str), if toTok != null then 0 else old(pos);
        s != null ==>
          var (token, b, next) := Call(old(s[..]), i, delim);
          && r == token && s[..] == b
          && (if token == None then str == old(str) && pos == old(pos) else str == s && pos == next)
      ensures toTok == null && old(str) != null ==> str == old(str)
    {
      var s, i := toTok, 0;
      if s == null {
        s, i := str, pos;
      }
      if s == null {
        return None;
      }
      ghost var b := s[..];
      var start := SkipDelims(s, i, delim);
      if s[start] == 0 {
        return None;
      }
      var end := FindEnd(s, start, delim);
      EndToken(s, end);
      return Some(start);
    }

    /** The first call on a string. */
    method FirstTok(b: array<Byte>, delim: seq<Byte>)
      returns (token: Option<nat>, ghost taken: seq<Token>, ghost all: seq<Token>)
      requires Valid() && 0 !in delim && StringAt(b[..], 0)
      modifies this, b, str
      ensures Valid() && all == AllTokens(old(b[..]), 0, delim)
      ensures token.None? ==> all == [] && b[..] == old(b[..]) && str == old(str) && pos == old(pos)
      ensures token.Some? ==> all != [] && str == b && Offsets(taken) == [token.value]
      ensures token.Some? ==> Progress(old(b[..]), b[..], pos, delim, taken, all)
    {
      ghost var was := b[..];
      all, taken := AllTokens(was, 0, delim), [];
      TakeNext(was, was, 0, delim, taken, all);
      token := KStrTok(b, delim);
      if token.Some? {
        ghost var t := Token(token.value, TokenEnd(was, token.value, delim));
        OffsetsAppend([], t);
        taken := [] + [t];
      }
    }

    /** A later call, when `taken` of `all` the tokens of the string have been returned. */
    method NextTok(b: array<Byte>, delim: seq<Byte>, ghost was: seq<Byte>, ghost taken: seq<Token>,
                   ghost all: seq<Token>)
      returns (token: Option<nat>, ghost now: seq<Token>)
      requires Valid() && 0 !in delim && str == b && Progress(was, b[..], pos, delim, taken, all)
      modifies this, b
      ensures Valid() && str == b && Progress(was, b[..], pos, delim, now, all)
      ensures token.None? ==> now == taken == all && Exhausted(delim)
      ensures token.Some? ==> |now| == |taken| + 1 && Offsets(now) == Offsets(taken) + [token.value]
    {
      TakeNext(was, b[..], pos, delim, taken, all);
      ghost var before := b[..];
      token := KStrTok(null, delim);
      now := taken;
      if token.Some? {
        ghost var t := Token(token.value, TokenEnd(before, token.value, delim));
        OffsetsAppend(taken, t);
        now := taken + [t];
      }
    }

    /** The turns of the loop of `SplitAll`, from the first token on. */
    method SplitRest(b: array<Byte>, delim: seq<Byte>, first: nat, ghost was: seq<Byte>, ghost taken0: seq<Token>,
                     ghost all: seq<Token>) returns (starts: seq<nat>)
      requires Valid() && 0 !in delim && str == b
      requires Progress(was, b[..], pos, delim, taken0, all) && Offsets(taken0) == [first]
      modifies this, b
      ensures Valid() && str == b && Exhausted(delim)
      ensures starts == Offsets(all) && Terminated(was, b[..], all)
    {
      var token := Some(first);
      ghost var taken := taken0;
      starts := [];
      while token.Some?
        invariant Valid() && str == b && Progress(was, b[..], pos, delim, taken, all)
        invariant Offsets(taken) == starts + if token.Some? then [token.value] else []
        invariant token.None? ==> taken == all && Exhausted(delim)
        decreases token.Some?, |all| - |taken|
      {
        starts := starts + [token.value];
        token, taken := NextTok(b, delim, was, taken, all);
      }
    }

    /** The loop that splits a path (kernel/filesystems/fat.c:201-226): a first call on the string, then
        calls with null until one returns null.  The results are the string's tokens, each terminated in
        place; if there was one, every later call returns null.  If there was none, the place remembered from
        before stays. */
    method SplitAll(b: array<Byte>, delim: seq<Byte>) returns (starts: seq<nat>)
      requires Valid() && 0 !in delim && StringAt(b[..], 0)
      modifies this, b, str
      ensures Valid()
      ensures var ts := AllTokens(old(b[..]), 0, delim);
        && starts == Offsets(ts)
        && Terminated(old(b[..]), b[..], ts)
        && (ts != [] ==> str == b && Exhausted(delim))
        && (ts == [] ==> str == old(str) && pos == old(pos))
    {
      starts := [];
      ghost var was := b[..];
      var token, taken, all := FirstTok(b, delim);
      if token.Some? {
        starts := SplitRest(b, delim, token.value, was, taken, all);
      }
    }
  }
}
