/** getRules: the rule sets cached per configuration file. The lookup and the insert
    are two lock sections with an unlocked load between them, run by any number of
    threads while the files change. */
module RulesCache {
  import opened Common

  /** Rule sets are shared objects; a number stands for the identity of one. */
  type RuleSetId = nat

  type FileTime = nat

  datatype CachedRules = CachedRules(rules: RuleSetId, mtime: FileTime)

  type Cache = map<string, CachedRules>

  /** The fast path's answer: cached, and the file cannot be dated or has not changed. */
  predicate IsFresh(cache: Cache, file: string, mtime: Option<FileTime>) {
    file in cache && (mtime.None? || cache[file].mtime == mtime.value)
  }

  /** Nothing cached is ever dropped or replaced. */
  ghost predicate Grows(before: Cache, after: Cache) {
    forall file <- before :: file in after && after[file] == before[file]
  }

  // ---- One call, in the presence of other threads ----

  /** The process-wide cache object. Its methods are the lock sections. */
  class RulesTable {
    var cache: Cache
    ghost var others: set<(string, CachedRules)>   // what other threads asked to insert

    constructor ()
      ensures cache == map[] && others == {}
    {
      cache, others := map[], {};
    }

    method FastPath(file: string, mtime: Option<FileTime>) returns (hit: Option<RuleSetId>)
      ensures hit == if IsFresh(cache, file, mtime) then Some(cache[file].rules) else None
    {
      hit := None;
      if file in cache && (mtime.None? || cache[file].mtime == mtime.value) {
        hit := Some(cache[file].rules);
      }
    }

    method KeepLastGood(file: string) returns (result: Option<RuleSetId>)
      ensures result == if file in cache then Some(cache[file].rules) else None
    {
      if file in cache {
        return Some(cache[file].rules);
      }
      return None;
    }

    method InsertOrDiscard(file: string, mtime: FileTime, loaded: RuleSetId) returns (result: RuleSetId)
      modifies this`cache
      ensures Grows(old(cache), cache) && file in cache && result == cache[file].rules
      ensures cache == if file in old(cache) then old(cache) else old(cache)[file := CachedRules(loaded, mtime)]
    {
      if file in cache {
        return cache[file].rules;
      }
      cache := cache[file := CachedRules(loaded, mtime)];
      return loaded;
    }

    /** Every entry that is new since `before` was inserted by another thread. */
    ghost predicate NewFromOthers(before: Cache)
      reads this
    {
      forall file <- cache :: file in before || (file, cache[file]) in others
    }

    /** Other threads run their lock sections: every one of them only adds entries. */
    method OthersRun()
      modifies this
      ensures Grows(old(cache), cache) && old(others) <= others
      ensures NewFromOthers(old(cache))
    {
      var more: nat := *;
      while more > 0
        invariant Grows(old(cache), cache) && old(others) <= others
        invariant NewFromOthers(old(cache))
      {
        var file: string := *;
        var mtime: FileTime := *;
        var loaded: RuleSetId := *;
        others := others + {(file, CachedRules(loaded, mtime))};
        var _ := InsertOrDiscard(file, mtime, loaded);
        more := more - 1;
      }
    }

    /** One call of getRules, with other threads running wherever no lock is held. What
        it answers for a file that was not cached is what it loaded itself, or what
        another thread inserted for that file; and it caches nothing else. It loads unless
        the file is cached and cannot be dated or has the write time of its entry. */
    method GetRules(file: string, mtime: Option<FileTime>, loads: Option<RuleSetId>)
      returns (result: Option<RuleSetId>, loaded: bool)
      modifies this
      ensures Grows(old(cache), cache) && old(others) <= others
      ensures file in old(cache) ==> (loaded <==> mtime.Some? && mtime.value != old(cache)[file].mtime)
      ensures !loaded ==> file in cache && (mtime.Some? ==> mtime.value == cache[file].mtime)
      ensures result.Some? ==> file in cache && result.value == cache[file].rules
      ensures result.None? ==> loads.None? && file !in cache
      ensures file in old(cache) ==> result == Some(old(cache)[file].rules)
      ensures file !in old(cache) && result.Some? ==>
                || (file, cache[file]) in others
                || (loads == result && cache[file].mtime == if mtime.Some? then mtime.value else 0)
      ensures forall f <- cache :: f == file || f in old(cache) || (f, cache[f]) in others
    {
      OthersRun();
      var hit := FastPath(file, mtime);
      if hit.Some? {
        return hit, false;
      }
      loaded := true;
      OthersRun();
      if loads.None? {
        result := KeepLastGood(file);
        return;
      }
      var r := InsertOrDiscard(file, if mtime.Some? then mtime.value else 0, loads.value);
      return Some(r), loaded;
    }
  }

  // ---- All calls together ----

  /** Where a call of getRules stands. */
  datatype Caller =
    | Looking(file: string, mtime: Option<FileTime>)
    | Loading(file: string, mtime: Option<FileTime>)
    | Loaded(file: string, mtime: Option<FileTime>, rules: RuleSetId)
    | LoadFailed(file: string)
    | Answered(file: string, result: Option<RuleSetId>)

  /** The cache, every call made so far, and the next unused rule set identity. */
  datatype Sys = Sys(cache: Cache, callers: seq<Caller>, unused: RuleSetId)

  datatype Action =
    | Call(file: string, mtime: Option<FileTime>)   // the caller dates the file
    | LookUp(i: nat)                                // first lock section
    | Load(i: nat, succeeds: bool)                  // unlocked
    | Settle(i: nat)                                // second lock section

  predicate Enabled(s: Sys, a: Action) {
    match a
    case Call(_, _) => true
    case LookUp(i) => i < |s.callers| && s.callers[i].Looking?
    case Load(i, _) => i < |s.callers| && s.callers[i].Loading?
    case Settle(i) => i < |s.callers| && (s.callers[i].Loaded? || s.callers[i].LoadFailed?)
  }

  function Apply(s: Sys, a: Action): Sys
    requires Enabled(s, a)
  {
    match a
    case Call(file, mtime) => s.(callers := s.callers + [Looking(file, mtime)])
    case LookUp(i) =>
      var Looking(file, mtime) := s.callers[i];
      s.(callers := s.callers[i := if IsFresh(s.cache, file, mtime)
                                   then Answered(file, Some(s.cache[file].rules)) else Loading(file, mtime)])
    case Load(i, succeeds) =>
      var Loading(file, mtime) := s.callers[i];
      if succeeds then s.(callers := s.callers[i := Loaded(file, mtime, s.unused)], unused := s.unused + 1)
      else s.(callers := s.callers[i := LoadFailed(file)])
    case Settle(i) =>
      var file := s.callers[i].file;
      if file in s.cache then s.(callers := s.callers[i := Answered(file, Some(s.cache[file].rules))])
      else if s.callers[i].LoadFailed? then s.(callers := s.callers[i := Answered(file, None)])
      else
        var Loaded(_, mtime, rules) := s.callers[i];
        s.(callers := s.callers[i := Answered(file, Some(rules))],
           cache := s.cache[file := CachedRules(rules, if mtime.Some? then mtime.value else 0)])
  }

  function Exec(acts: seq<Action>): Option<Sys> {
    if acts == [] then Some(Sys(map[], [], 0))
    else
      match Exec(acts[..|acts| - 1])
      case None => None
      case Some(s) =>
        var a := acts[|acts| - 1];
        if Enabled(s, a) then Some(Apply(s, a)) else None
  }

  /** Every rule set handed out is the cached one of its file; loaded but not yet
      settled rule sets are new. */
  ghost predicate Inv(s: Sys) {
    && (forall i :: 0 <= i < |s.callers| && s.callers[i].Answered? && s.callers[i].result.Some? ==>
          s.callers[i].file in s.cache && s.cache[s.callers[i].file].rules == s.callers[i].result.value)
    && (forall i :: 0 <= i < |s.callers| && s.callers[i].Loaded? ==> s.callers[i].rules < s.unused)
    && (forall file <- s.cache :: s.cache[file].rules < s.unused)
  }

  /** One action keeps the invariant, all cached entries, and all given answers. */
  lemma StepKeeps(s: Sys, a: Action)
    requires Inv(s) && Enabled(s, a)
    ensures Inv(Apply(s, a)) && Grows(s.cache, Apply(s, a).cache)
    ensures |s.callers| <= |Apply(s, a).callers|
    ensures forall i :: 0 <= i < |s.callers| && s.callers[i].Answered? ==> Apply(s, a).callers[i] == s.callers[i]
  {
  }

  lemma {:induction false} ReachableInv(acts: seq<Action>)
    requires Exec(acts).Some?
    ensures Inv(Exec(acts).value)
  {
    if acts != [] {
      ReachableInv(acts[..|acts| - 1]);
      StepKeeps(Exec(acts[..|acts| - 1]).value, acts[|acts| - 1]);
    }
  }

  /** The cache is write-once: no continuation of any run, whatever the files do,
      changes or drops a cached entry, or takes back an answer. */
  lemma {:induction false} CacheIsWriteOnce(acts: seq<Action>, more: seq<Action>)
    requires Exec(acts).Some? && Exec(acts + more).Some?
    ensures Grows(Exec(acts).value.cache, Exec(acts + more).value.cache)
    ensures |Exec(acts).value.callers| <= |Exec(acts + more).value.callers|
    ensures forall i :: 0 <= i < |Exec(acts).value.callers| && Exec(acts).value.callers[i].Answered? ==>
              Exec(acts + more).value.callers[i] == Exec(acts).value.callers[i]
  {
    if more == [] {
      assert acts + more == acts;
    } else {
      var front := more[..|more| - 1];
      assert (acts + more)[..|acts + more| - 1] == acts + front;
      CacheIsWriteOnce(acts, front);
      ReachableInv(acts + front);
      StepKeeps(Exec(acts + front).value, more[|more| - 1]);
    }
  }

  /** All callers agree: any two rule sets ever returned for one file are the same,
      also to threads that loaded it at the same time. */
  lemma CallersAgree(acts: seq<Action>, i: nat, j: nat)
    requires Exec(acts).Some?
    requires i < |Exec(acts).value.callers| && j < |Exec(acts).value.callers|
    requires var a, b := Exec(acts).value.callers[i], Exec(acts).value.callers[j];
             a.Answered? && b.Answered? && a.file == b.file && a.result.Some? && b.result.Some?
    ensures Exec(acts).value.callers[i].result == Exec(acts).value.callers[j].result
  {
    ReachableInv(acts);
  }

  /** Once some load of a file has been cached, every call that settles later, in any
      continuation of the run, returns the cached rule set -- also when its own load
      failed, and also when the file has changed since. */
  lemma LastKnownGood(acts: seq<Action>, more: seq<Action>, i: nat, file: string)
    requires Exec(acts).Some? && Exec(acts + more).Some? && file in Exec(acts).value.cache
    requires Enabled(Exec(acts + more).value, Settle(i)) && Exec(acts + more).value.callers[i].file == file
    ensures Apply(Exec(acts + more).value, Settle(i)).callers[i]
            == Answered(file, Some(Exec(acts).value.cache[file].rules))
  {
    CacheIsWriteOnce(acts, more);
  }

  /** A call ends with nullptr exactly when its own load failed and no entry existed at
      its second lock section. */
  lemma NullOnlyWithoutRules(acts: seq<Action>, a: Action, i: nat)
    requires Exec(acts).Some? && Enabled(Exec(acts).value, a)
    requires i < |Exec(acts).value.callers| && !Exec(acts).value.callers[i].Answered?
    ensures var s := Exec(acts).value;
            Apply(s, a).callers[i] == Answered(s.callers[i].file, None)
            <==> a == Settle(i) && s.callers[i].LoadFailed? && s.callers[i].file !in s.cache
  {
  }

  // ---- Where rule sets come from ----

  /** Some call for this file, which saw this write time, loaded it successfully as this
      rule set. */
  ghost predicate LoadedAt(acts: seq<Action>, k: nat, file: string, mtime: Option<FileTime>, rules: RuleSetId)
    requires k < |acts|
  {
    && acts[k].Load? && acts[k].succeeds
    && Exec(acts[..k]).Some? && Exec(acts[..k]).value.unused == rules
    && acts[k].i < |Exec(acts[..k]).value.callers|
    && Exec(acts[..k]).value.callers[acts[k].i] == Loading(file, mtime)
  }

  ghost predicate LoadedFor(acts: seq<Action>, file: string, mtime: Option<FileTime>, rules: RuleSetId) {
    exists k: nat :: k < |acts| && LoadedAt(acts, k, file, mtime, rules)
  }

  lemma LoadedForGrows(acts: seq<Action>, a: Action, file: string, mtime: Option<FileTime>, rules: RuleSetId)
    requires LoadedFor(acts, file, mtime, rules)
    ensures LoadedFor(acts + [a], file, mtime, rules)
  {
    var k: nat :| k < |acts| && LoadedAt(acts, k, file, mtime, rules);
    assert (acts + [a])[..k] == acts[..k];
    assert LoadedAt(acts + [a], k, file, mtime, rules);
  }

  ghost predicate EntryLoaded(acts: seq<Action>, file: string, entry: CachedRules) {
    exists mtime :: LoadedFor(acts, file, mtime, entry.rules) && entry.mtime == if mtime.Some? then mtime.value else 0
  }

  /** What a call has loaded, or was answered, was loaded from its own file. */
  ghost predicate CallerSourced(acts: seq<Action>, c: Caller) {
    match c
    case Loaded(file, mtime, rules) => LoadedFor(acts, file, mtime, rules)
    case Answered(file, Some(rules)) => exists mtime :: LoadedFor(acts, file, mtime, rules)
    case _ => true
  }

  ghost predicate Sourced(acts: seq<Action>, s: Sys) {
    && (forall file <- s.cache :: EntryLoaded(acts, file, s.cache[file]))
    && (forall i :: 0 <= i < |s.callers| ==> CallerSourced(acts, s.callers[i]))
  }

  lemma SourcedKept(acts: seq<Action>, s: Sys, a: Action)
    requires Sourced(acts, s)
    ensures Sourced(acts + [a], s)
  {
    forall file, mtime, rules | LoadedFor(acts, file, mtime, rules)
      ensures LoadedFor(acts + [a], file, mtime, rules)
    {
      LoadedForGrows(acts, a, file, mtime, rules);
    }
    forall i | 0 <= i < |s.callers|
      ensures CallerSourced(acts + [a], s.callers[i])
    {
      assert CallerSourced(acts, s.callers[i]);
    }
  }

  /** One call moves on; an entry may be cached with it. */
  lemma CallerMoves(acts: seq<Action>, s: Sys, s': Sys, i: nat, c: Caller)
    requires Sourced(acts, s) && i < |s.callers| && s'.callers == s.callers[i := c] && CallerSourced(acts, c)
    requires forall file <- s'.cache ::
               (file in s.cache && s'.cache[file] == s.cache[file]) || EntryLoaded(acts, file, s'.cache[file])
    ensures Sourced(acts, s')
  {
  }

  lemma SourcedStep(acts: seq<Action>, s: Sys, a: Action)
    requires Exec(acts) == Some(s) && Enabled(s, a) && Sourced(acts, s)
    ensures Sourced(acts + [a], Apply(s, a))
  {
    var s' := Apply(s, a);
    var acts' := acts + [a];
    SourcedKept(acts, s, a);
    if !a.Call? {
      var c := s.callers[a.i];
      assert CallerSourced(acts', c);
      if a.Load? && a.succeeds {
        assert acts'[..|acts|] == acts;
        assert LoadedAt(acts', |acts|, c.file, c.mtime, s.unused);
      } else if c.file in s.cache {
        assert EntryLoaded(acts', c.file, s.cache[c.file]);
      }
      CallerMoves(acts', s, s', a.i, s'.callers[a.i]);
    }
  }

  /** Over every run: each rule set cached for a file, or answered for it, was loaded
      successfully by a call for that same file; and a cached entry carries the write time
      that call saw. */
  lemma {:induction false} RulesComeFromTheirFile(acts: seq<Action>)
    requires Exec(acts).Some?
    ensures Sourced(acts, Exec(acts).value)
  {
    if acts != [] {
      var front, a := acts[..|acts| - 1], acts[|acts| - 1];
      RulesComeFromTheirFile(front);
      SourcedStep(front, Exec(front).value, a);
      assert front + [a] == acts;
    }
  }

  /** Rule set identities are never used twice. */
  lemma {:induction false} UnusedGrows(acts: seq<Action>, k: nat, n: nat)
    requires k <= n <= |acts| && Exec(acts[..n]).Some?
    ensures Exec(acts[..k]).Some? && Exec(acts[..k]).value.unused <= Exec(acts[..n]).value.unused
    ensures k < n && acts[k].Load? && acts[k].succeeds ==>
              Exec(acts[..k]).value.unused < Exec(acts[..n]).value.unused
    decreases n
  {
    if k < n {
      assert acts[..n][..n - 1] == acts[..n - 1];
      UnusedGrows(acts, k, n - 1);
    }
  }

  lemma LoadedByOneCall(acts: seq<Action>, f: string, mf: Option<FileTime>, g: string, mg: Option<FileTime>, rules: RuleSetId)
    requires LoadedFor(acts, f, mf, rules) && LoadedFor(acts, g, mg, rules)
    ensures f == g && mf == mg
  {
    var i: nat :| i < |acts| && LoadedAt(acts, i, f, mf, rules);
    var j: nat :| j < |acts| && LoadedAt(acts, j, g, mg, rules);
    if i < j {
      UnusedGrows(acts, i, j);
    } else if j < i {
      UnusedGrows(acts, j, i);
    }
  }

  /** No rule set is ever answered for two files. */
  lemma FilesShareNoRules(acts: seq<Action>, i: nat, j: nat)
    requires Exec(acts).Some?
    requires i < |Exec(acts).value.callers| && j < |Exec(acts).value.callers|
    requires var a, b := Exec(acts).value.callers[i], Exec(acts).value.callers[j];
             a.Answered? && b.Answered? && a.result.Some? && a.result == b.result
    ensures Exec(acts).value.callers[i].file == Exec(acts).value.callers[j].file
  {
    RulesComeFromTheirFile(acts);
    var a, b := Exec(acts).value.callers[i], Exec(acts).value.callers[j];
    assert CallerSourced(acts, a) && CallerSourced(acts, b);
    var ma :| LoadedFor(acts, a.file, ma, a.result.value);
    var mb :| LoadedFor(acts, b.file, mb, b.result.value);
    LoadedByOneCall(acts, a.file, ma, b.file, mb, a.result.value);
  }

  /** A call that has loaded rules and finds no entry is answered with its own rule set,
      and caches it with the write time it saw. */
  lemma OwnRulesAreAnswered(s: Sys, i: nat)
    requires Enabled(s, Settle(i)) && s.callers[i].Loaded? && s.callers[i].file !in s.cache
    ensures var c, after := s.callers[i], Apply(s, Settle(i));
            && after.callers[i] == Answered(c.file, Some(c.rules))
            && after.cache.Keys == s.cache.Keys + {c.file}
            && after.cache[c.file].rules == c.rules
            && (c.mtime.Some? ==> after.cache[c.file].mtime == c.mtime.value)
  {
  }

  /** Over every run, the first lock section of a call sends it loading exactly when its
      file has no entry yet, or when it sees another write time than the call that loaded
      the entry. */
  lemma LoadsAgainIff(acts: seq<Action>, s: Sys, i: nat)
    requires Exec(acts) == Some(s) && Enabled(s, LookUp(i))
    ensures var c := s.callers[i];
            Apply(s, LookUp(i)).callers[i].Loading? <==>
              || c.file !in s.cache
              || (exists seen: Option<FileTime> ::
                    && LoadedFor(acts, c.file, seen, s.cache[c.file].rules)
                    && c.mtime.Some? && c.mtime.value != if seen.Some? then seen.value else 0)
  {
    RulesComeFromTheirFile(acts);
    var c := s.callers[i];
    if c.file in s.cache {
      assert EntryLoaded(acts, c.file, s.cache[c.file]);
      var seen :| LoadedFor(acts, c.file, seen, s.cache[c.file].rules)
                  && s.cache[c.file].mtime == if seen.Some? then seen.value else 0;
      forall other | LoadedFor(acts, c.file, other, s.cache[c.file].rules)
        ensures other == seen
      {
        LoadedByOneCall(acts, c.file, seen, c.file, other, s.cache[c.file].rules);
      }
    }
  }

  /** A call that starts after a file was cached returns the cached rule set, whatever
      write time it sees: a changed file does not invalidate its entry. */
  lemma ChangedFileIsIgnored(acts: seq<Action>, more: seq<Action>, i: nat, file: string)
    requires Exec(acts).Some? && Exec(acts + more).Some? && file in Exec(acts).value.cache
    requires |Exec(acts).value.callers| <= i < |Exec(acts + more).value.callers|
    requires Exec(acts + more).value.callers[i].Answered? && Exec(acts + more).value.callers[i].file == file
    ensures Exec(acts + more).value.callers[i].result == Some(Exec(acts).value.cache[file].rules)
  {
    AnsweredFromCache(acts, more, i, file);
    CacheIsWriteOnce(acts, more);
    ReachableInv(acts + more);
  }

  lemma {:induction false} AnsweredFromCache(acts: seq<Action>, more: seq<Action>, i: nat, file: string)
    requires Exec(acts).Some? && Exec(acts + more).Some? && file in Exec(acts).value.cache
    requires |Exec(acts).value.callers| <= i < |Exec(acts + more).value.callers|
    ensures var c := Exec(acts + more).value.callers[i]; c.Answered? && c.file == file ==> c.result.Some?
    decreases |more|
  {
    assert acts + [] == acts;
    if more != [] {
      var front, a := more[..|more| - 1], more[|more| - 1];
      assert (acts + more)[..|acts + more| - 1] == acts + front;
      CacheIsWriteOnce(acts, front);
      var s := Exec(acts + front).value;
      if i < |s.callers| {
        AnsweredFromCache(acts, front, i, file);
      }
      AnswersFromCache(s, a, i, file);
    }
  }

  /** While a file is cached, no action answers a call for it with nullptr. */
  lemma AnswersFromCache(s: Sys, a: Action, i: nat, file: string)
    requires Enabled(s, a) && file in s.cache && i < |Apply(s, a).callers|
    requires i < |s.callers| && s.callers[i].Answered? && s.callers[i].file == file ==> s.callers[i].result.Some?
    ensures var c := Apply(s, a).callers[i]; c.Answered? && c.file == file ==> c.result.Some?
  {
  }
}
