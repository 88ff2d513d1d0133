/** The list of packs a pure server allows, FS_PureServerSetLoadedIwds of src/filesystem.c. */
module PureIwds {
  import opened CString
  import opened Tokenizer

  const MAX_IWDS := 1024

  datatype Iwd = Iwd(sum: int, name: string)

  predicate Match(a: Iwd, b: Iwd) { a.sum == b.sum && EqualFold(a.name, b.name) }

  ghost predicate Listed(p: Iwd, list: seq<Iwd>) { exists i :: 0 <= i < |list| && Match(p, list[i]) }

  ghost predicate AllListed(a: seq<Iwd>, b: seq<Iwd>) { forall i :: 0 <= i < |a| ==> Listed(a[i], b) }

  lemma MatchEquivalence(a: Iwd, b: Iwd, c: Iwd)
    ensures Match(a, a) && (Match(a, b) ==> Match(b, a)) && (Match(a, b) && Match(b, c) ==> Match(a, c))
  {
  }

  // ---------------------------------------------------------------------------------------------
  // When "already loaded" means that the two lists hold the same packs

  ghost predicate Distinct(list: seq<Iwd>) {
    forall i, j :: 0 <= i < j < |list| ==> !Match(list[i], list[j])
  }

  /** The first place of a listed pack. */
  ghost function Place(p: Iwd, list: seq<Iwd>): (k: nat)
    requires Listed(p, list)
    ensures k < |list| && Match(p, list[k])
  {
    var i :| 0 <= i < |list| && Match(p, list[i]);
    i
  }

  /** The places that the first `n` requests take. */
  ghost function Places(a: seq<Iwd>, n: nat, b: seq<Iwd>): (s: set<int>)
    requires n <= |a| && AllListed(a, b)
    ensures forall k :: k in s ==> 0 <= k < |b| && exists i :: 0 <= i < n && Match(a[i], b[k])
  {
    if n == 0 then {} else Places(a, n - 1, b) + {Place(a[n - 1], b)}
  }

  lemma NewPlace(a: seq<Iwd>, n: nat, b: seq<Iwd>)
    requires n < |a| && AllListed(a, b) && Distinct(a)
    ensures Place(a[n], b) !in Places(a, n, b)
  {
    hide Match, Listed, Places;
    var k := Place(a[n], b);
    if k in Places(a, n, b) {
      var i :| 0 <= i < n && Match(a[i], b[k]);
      MatchEquivalence(a[n], b[k], b[k]);
      MatchEquivalence(a[i], b[k], a[n]);
    }
  }

  lemma OneMore(s: set<int>, k: int)
    requires k !in s
    ensures |s + {k}| == |s| + 1
  {
  }

  lemma {:induction false} DistinctPlaces(a: seq<Iwd>, n: nat, b: seq<Iwd>)
    requires n <= |a| && AllListed(a, b) && Distinct(a)
    ensures |Places(a, n, b)| == n
  {
    hide Match, Listed, Distinct, Place;
    if n > 0 {
      DistinctPlaces(a, n - 1, b);
      NewPlace(a, n - 1, b);
      OneMore(Places(a, n - 1, b), Place(a[n - 1], b));
    }
  }

  ghost function Below(n: nat): (s: set<int>)
    ensures |s| == n && forall k :: k in s <==> 0 <= k < n
  {
    if n == 0 then {} else
    var s := Below(n - 1);
    assert n - 1 !in s;
    s + {n - 1}
  }

  lemma AllPlaces(s: set<int>, n: nat)
    requires |s| == n && forall k :: k in s ==> 0 <= k < n
    ensures forall k :: 0 <= k < n ==> k in s
  {
    var all := Below(n);
    assert s <= all;
    if exists k :: 0 <= k < n && k !in s {
      var k :| 0 <= k < n && k !in s;
      Smaller(s, all, k);
    }
  }

  lemma Smaller(s: set<int>, all: set<int>, k: int)
    requires s <= all && k in all && k !in s
    ensures |s| < |all|
  {
    assert all == s + (all - s) && k in all - s;
  }

  /** If no two requests match, equal counts make the loaded list hold nothing else. */
  lemma DistinctExit(request: seq<Iwd>, server: seq<Iwd>)
    requires |request| == |server| && AllListed(request, server) && Distinct(request)
    ensures AllListed(server, request)
  {
    hide Match;
    var s := Places(request, |request|, server);
    DistinctPlaces(request, |request|, server);
    AllPlaces(s, |server|);
    forall k | 0 <= k < |server|
      ensures Listed(server[k], request)
    {
      assert k in s;
      var i :| 0 <= i < |request| && Match(request[i], server[k]);
      MatchEquivalence(request[i], server[k], server[k]);
    }
  }

  function Longest(list: seq<Iwd>): (n: nat)
    ensures forall i :: 0 <= i < |list| ==> |list[i].name| <= n
  {
    if list == [] then 0
    else var n := Longest(list[..|list| - 1]);
         if |list[|list| - 1].name| > n then |list[|list| - 1].name| else n
  }

  /** With two matching requests there is a server list that passes for the same without being it. */
  lemma DuplicateFools(request: seq<Iwd>, i: nat, j: nat) returns (server: seq<Iwd>)
    requires i < j < |request| && Match(request[i], request[j])
    ensures |server| == |request| && AllListed(request, server) && !AllListed(server, request)
  {
    var stranger := Iwd(0, seq(Longest(request) + 1, _ => 'x'));
    server := request[j := stranger];
    forall k | 0 <= k < |request|
      ensures Listed(request[k], server)
    {
      MatchEquivalence(request[i], request[j], request[j]);
      MatchEquivalence(request[k], request[k], request[k]);
      assert server[i] == request[i];
      assert k != j ==> server[k] == request[k];
    }
    assert server[j] == stranger;
    forall k | 0 <= k < |request|
      ensures !Match(stranger, request[k])
    {
    }
  }

  /** "Already loaded" can be trusted exactly for requests without repetitions: only then does it mean, whatever list
      is loaded, that everything loaded was requested. */
  lemma ExitMeansSameIff(request: seq<Iwd>)
    ensures (forall server: seq<Iwd> ::
               |server| == |request| && AllListed(request, server) ==> AllListed(server, request))
            <==> Distinct(request)
  {
    hide AllListed, Match;
    if Distinct(request) {
      forall server: seq<Iwd> | |server| == |request| && AllListed(request, server)
        ensures AllListed(server, request)
      {
        DistinctExit(request, server);
      }
    } else {
      var i, j :| 0 <= i < j < |request| && Match(request[i], request[j]);
      var server := DuplicateFools(request, i, j);
    }
  }

  // ---------------------------------------------------------------------------------------------
  // The call as a whole

  datatype Answer = Fatal | Rt(rt: int)

  function Pairs(sums: seq<int>, names: seq<string>): (r: seq<Iwd>)
    requires |sums| == |names|
    ensures |r| == |sums|
  {
    seq(|sums|, i requires 0 <= i < |sums| => Iwd(sums[i], names[i]))
  }

  /** A pack that must be pure but was not requested. */
  ghost predicate Missed(pure: seq<Iwd>, request: seq<Iwd>) {
    request != [] && exists i :: 0 <= i < |pure| && !ListedBack(pure[i], request)
  }

  /** The loop over the requests compares in the other direction. */
  ghost predicate ListedBack(p: Iwd, list: seq<Iwd>) { exists i :: 0 <= i < |list| && Match(list[i], p) }

  /** The list stays as it is exactly if as many packs are loaded as requested, each request is among them, and no
      pack that must be pure was left out; else the request replaces it. */
  ghost function NewList(pure: seq<Iwd>, server: seq<Iwd>, request: seq<Iwd>): seq<Iwd> {
    if |request| == |server| && !Missed(pure, request) && AllListed(request, server) then server else request
  }

  ghost function AnswerTo(pure: seq<Iwd>, request: seq<Iwd>): Answer { Rt(if Missed(pure, request) then 1 else 0) }

  /** A second call with the same packs changes nothing. */
  lemma Idempotent(pure: seq<Iwd>, server: seq<Iwd>, request: seq<Iwd>)
    ensures var once := NewList(pure, server, request); NewList(pure, once, request) == once
  {
  }

  /** After the call every requested pack is allowed, and, for requests without repetitions, no other one. */
  lemma Allowed(pure: seq<Iwd>, server: seq<Iwd>, request: seq<Iwd>)
    ensures var list := NewList(pure, server, request);
            |list| == |request| && AllListed(request, list) && (Distinct(request) ==> AllListed(list, request))
  {
    hide AllListed, Missed, Match;
    SelfListed(request);
    if Distinct(request) && |request| == |server| && AllListed(request, server) {
      DistinctExit(request, server);
    }
  }

  /** The pack is in the list: one of its checksum, under its name up to case. */
  ghost predicate Has(list: seq<Iwd>, p: Iwd) {
    exists i :: 0 <= i < |list| && list[i].sum == p.sum && EqualFold(list[i].name, p.name)
  }

  lemma HasIsListed(p: Iwd, list: seq<Iwd>)
    ensures (Has(list, p) <==> Listed(p, list)) && (Has(list, p) <==> ListedBack(p, list))
  {
    hide EqualFold;
    forall i | 0 <= i < |list|
      ensures EqualFold(list[i].name, p.name) == EqualFold(p.name, list[i].name)
      ensures EqualFold(list[i].name, p.name) && list[i].sum == p.sum <==> Match(p, list[i])
      ensures Match(p, list[i]) <==> Match(list[i], p)
    {
      SameFold(list[i].name, p.name);
    }
  }

  lemma SameFold(a: string, b: string)
    ensures EqualFold(a, b) == EqualFold(b, a)
  {
  }

  /** The call answers 1 exactly if something is requested, but not some pack that must be pure; else 0. */
  lemma AnswerIff(pure: seq<Iwd>, request: seq<Iwd>)
    ensures AnswerTo(pure, request) == Rt(1) <==> request != [] && exists i :: 0 <= i < |pure| && !Has(request, pure[i])
    ensures AnswerTo(pure, request) == Rt(0) || AnswerTo(pure, request) == Rt(1)
  {
    hide Has, ListedBack;
    forall i | 0 <= i < |pure|
      ensures Has(request, pure[i]) <==> ListedBack(pure[i], request)
    {
      HasIsListed(pure[i], request);
    }
  }

  /** A list that is another one than the request stays exactly if it has as many packs, the answer is 0 and it has
      every pack requested; else the request takes its place. */
  lemma StaysIff(pure: seq<Iwd>, server: seq<Iwd>, request: seq<Iwd>)
    requires server != request
    ensures NewList(pure, server, request) == server
            <==> |server| == |request| && AnswerTo(pure, request) == Rt(0)
                 && forall i :: 0 <= i < |request| ==> Has(server, request[i])
    ensures NewList(pure, server, request) == server || NewList(pure, server, request) == request
  {
    hide Has, Listed, Missed;
    forall i | 0 <= i < |request|
      ensures Has(server, request[i]) <==> Listed(request[i], server)
    {
      HasIsListed(request[i], server);
    }
  }

  lemma SelfListed(list: seq<Iwd>)
    ensures AllListed(list, list)
  {
    forall i | 0 <= i < |list|
      ensures Listed(list[i], list)
    {
      MatchEquivalence(list[i], list[i], list[i]);
    }
  }

  // ---------------------------------------------------------------------------------------------
  // The program

  function SumsOf(tokens: seq<string>): (sums: seq<int>)
    ensures |sums| == |tokens|
  {
    seq(|tokens|, i requires 0 <= i < |tokens| => Atoi(tokens[i]))
  }

  /** The tokens of a text in the space that the strings in use leave. */
  function NewTokens(frames: seq<seq<string>>, text: string): seq<string> {
    var pushed := Push(frames, text, false);
    pushed[|pushed| - 1]
  }

  lemma PushedTokens(frames: seq<seq<string>>, text: string)
    ensures Push(frames, text, false) == frames + [NewTokens(frames, text)] && |NewTokens(frames, text)| <= MAX_IWDS
  {
    hide Tokens;
  }

  /** What tokenising a text and ending it do to the stack, together. */
  lemma PushedStack(st: Stack, text: string)
    requires Kept(st) && st.depth < MAX_TOKENIZE_STRINGS && !Fails(st, Tokenize(text, false))
    ensures var st' := After(st, Tokenize(text, false));
            && st'.frames == st.frames + [NewTokens(st.frames, text)] && st'.depth == st.depth + 1
            && (st.used || st.depth > 0 ==> st'.used)
            && !Fails(st', End) && After(st', End) == st.(used := st'.used)
  {
    hide Push, TokenStart;
    PushedTokens(st.frames, text);
    var frames := st.frames + [NewTokens(st.frames, text)];
    assert frames[..|frames| - 1] == st.frames;
  }

  /** The loops that copy the arguments. */
  method Arguments(tok: CmdTokenizer) returns (tokens: seq<string>)
    requires tok.Valid() && tok.currentString <= MAX_TOKENIZE_STRINGS
    ensures tokens == tok.Top()
  {
    tokens := [];
    var n := tok.Argc();
    var i := 0;
    while i < n
      invariant 0 <= i <= n && tokens == tok.Top()[..i]
    {
      var token := tok.Argv(i);
      tokens := tokens + [token];
      i := i + 1;
    }
  }

  /** Tokenises a text, copies its tokens, and ends it. */
  method TokensFrom(tok: CmdTokenizer, text: string) returns (fatal: bool, tokens: seq<string>)
    requires tok.Valid() && tok.currentString < MAX_TOKENIZE_STRINGS && NulFree(text)
    modifies tok, tok.argcList, tok.argv, tok.tokenized
    ensures tok.Valid() && (fatal <==> Fails(old(tok.St()), Tokenize(text, false)))
    ensures tok.frames == old(tok.frames) && tok.currentString == old(tok.currentString)
    ensures old(tok.St()).used || (!fatal && tok.currentString > 0) ==> tok.St().used
    ensures !fatal ==> tokens == NewTokens(old(tok.frames), text)
  {
    hide Push;
    hide After, Tokens, Flatten, Layout, AllNulFree;
    if !Fails(tok.St(), Tokenize(text, false)) {
      PushedStack(tok.St(), text);
    }
    tokens := [];
    fatal := tok.TokenizeString(text, false);
    if fatal {
      return;
    }
    tokens := Arguments(tok);
    var _ := tok.EndTokenizedString();
  }

  class FileSystem {
    var fs_numServerIwds: nat
    const fs_serverIwds: array<int>
    const fs_serverIwdNames: array<string>
    var pureChecks: seq<Iwd>

    ghost predicate Valid()
      reads this, fs_serverIwds, fs_serverIwdNames
    {
      fs_numServerIwds <= fs_serverIwds.Length == fs_serverIwdNames.Length == MAX_IWDS
    }

    ghost function Server(): seq<Iwd>
      reads this, fs_serverIwds, fs_serverIwdNames
      requires Valid()
    {
      Pairs(fs_serverIwds[..fs_numServerIwds], fs_serverIwdNames[..fs_numServerIwds])
    }

    /** Whether some pack that must be pure is not among the requests. */
    method AnyMissed(request: seq<Iwd>) returns (rt: int)
      ensures rt == if exists i :: 0 <= i < |pureChecks| && !ListedBack(pureChecks[i], request) then 1 else 0
    {
      hide Match;
      rt := 0;
      var p := 0;
      while p < |pureChecks|
        invariant 0 <= p <= |pureChecks| && forall q :: 0 <= q < p ==> ListedBack(pureChecks[q], request)
      {
        var i := 0;
        while i < |request| && !Match(request[i], pureChecks[p])
          invariant 0 <= i <= |request| && forall j :: 0 <= j < i ==> !Match(request[j], pureChecks[p])
        {
          i := i + 1;
        }
        if i == |request| {
          assert !ListedBack(pureChecks[p], request);
          return 1;
        }
        p := p + 1;
      }
    }

    /** The loop that starts over behind every match. */
    method AllLoaded(request: seq<Iwd>) returns (all: bool)
      requires Valid() && |request| == fs_numServerIwds
      ensures all == (request != [] && AllListed(request, Server()))
    {
      hide Match;
      all := false;
      var i, k := 0, 0;
      ghost var server := Server();
      while i < fs_numServerIwds
        invariant 0 <= i <= fs_numServerIwds && 0 <= k <= |request| && (request != [] ==> k < |request|)
        invariant forall m :: 0 <= m < k ==> Listed(request[m], server)
        invariant forall m :: 0 <= m < i && k < |request| ==> !Match(request[k], server[m])
        decreases |request| - k, fs_numServerIwds - i
      {
        if Match(request[k], Iwd(fs_serverIwds[i], fs_serverIwdNames[i])) {
          assert Match(request[k], server[i]);
          k := k + 1;
          if k < |request| {
            i := 0;
            continue;
          }
          return true;
        }
        i := i + 1;
      }
      assert request != [] ==> !Listed(request[k], server);
    }

    /** FS_PureServerSetLoadedIwds, behind the splitting of its two texts; the arrays hold 1024 packs. */
    method SetLoadedIwds(sums: seq<int>, names: seq<string>) returns (r: Answer)
      requires Valid() && |sums| <= MAX_IWDS && |names| <= MAX_IWDS
      modifies this`fs_numServerIwds, fs_serverIwds, fs_serverIwdNames
      ensures Valid()
      ensures if |sums| != |names| then r == Fatal && Server() == old(Server())
              else r == AnswerTo(pureChecks, Pairs(sums, names))
                   && Server() == NewList(pureChecks, old(Server()), Pairs(sums, names))
    {
      hide Match, Listed, ListedBack;
      if |sums| != |names| {
        return Fatal;
      }
      var request := Pairs(sums, names);
      var rt := 0;
      if |sums| > 0 {
        rt := AnyMissed(request);
      }
      if |sums| == fs_numServerIwds && rt == 0 {
        var all := AllLoaded(request);
        if all {
          return Rt(0);
        }
        if |sums| == 0 {
          return Rt(rt);
        }
      }
      Replace(sums, names);
      r := Rt(rt);
    }

    /** FS_PureServerSetLoadedIwds as it is called: the two texts go through the tokenizer, nested in whatever strings
        are in use, and leave those as they were. More than 1024 tokens do not come. */
    method SetLoadedIwdsFrom(tok: CmdTokenizer, paksums: string, paknames: string) returns (r: Answer)
      requires Valid() && tok.Valid() && tok.currentString < MAX_TOKENIZE_STRINGS
      requires NulFree(paksums) && NulFree(paknames)
      requires fs_serverIwds != tok.argv && fs_serverIwds != tok.argcList
      modifies this`fs_numServerIwds, fs_serverIwds, fs_serverIwdNames
      modifies tok, tok.argcList, tok.argv, tok.tokenized
      ensures Valid() && tok.Valid()
      ensures var fails := Fails(old(tok.St()), Tokenize(paksums, false));
              if fails then r == Fatal && Server() == old(Server())
              else tok.frames == old(tok.frames) && tok.currentString == old(tok.currentString)
      ensures !Fails(old(tok.St()), Tokenize(paksums, false)) ==>
                var sums, names := SumsOf(NewTokens(old(tok.frames), paksums)), NewTokens(old(tok.frames), paknames);
                if |sums| != |names| then r == Fatal && Server() == old(Server())
                else r == AnswerTo(old(pureChecks), Pairs(sums, names))
                     && Server() == NewList(old(pureChecks), old(Server()), Pairs(sums, names))
    {
      hide Match, Listed, ListedBack, AnswerTo, NewList, Push, Pairs;
      ghost var frames := tok.frames;
      PushedTokens(frames, paksums);
      PushedTokens(frames, paknames);
      var fatal, sumTokens := TokensFrom(tok, paksums);
      if fatal {
        return Fatal;
      }
      var nameTokens;
      fatal, nameTokens := TokensFrom(tok, paknames);
      r := SetLoadedIwds(SumsOf(sumTokens), nameTokens);
    }

    /** The copies at the end. */
    method Replace(sums: seq<int>, names: seq<string>)
      requires Valid() && |sums| == |names| <= MAX_IWDS
      modifies this`fs_numServerIwds, fs_serverIwds, fs_serverIwdNames
      ensures Valid() && Server() == Pairs(sums, names)
    {
      fs_numServerIwds := |sums|;
      forall i | 0 <= i < |sums| {
        fs_serverIwds[i] := sums[i];
      }
      forall i | 0 <= i < |names| {
        fs_serverIwdNames[i] := names[i];
      }
      assert fs_serverIwds[..fs_numServerIwds] == sums && fs_serverIwdNames[..fs_numServerIwds] == names;
    }
  }
}
