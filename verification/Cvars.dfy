/** The cvar registry of src/cvar.c for boolean, integer and string variables. */
module Cvars {
  import opened CString

  const MAX_CVARS := 8192
  const FILE_HASH_SIZE := 512
  const NIL := -1

  datatype Flag = ARCHIVE | USERINFO | SERVERINFO | SYSTEMINFO | INIT | LATCH | ROM | CHEAT | TEMP | NORESTART
      | USER_CREATED

  datatype Kind = KBool | KInt | KString

  datatype Value = Bool(b: bool) | Int(i: int) | Str(s: string) {
    function Kind(): Kind {
      match this
      case Bool(_) => KBool
      case Int(_) => KInt
      case Str(_) => KString
    }
  }

  datatype Cvar = Cvar(name: string, flags: set<Flag>, current: Value, latched: Value, reset: Value, imin: int,
      imax: int)
  {
    /** The three values are of one type. */
    predicate Typed() {
      current.Kind() == latched.Kind() == reset.Kind() && (USER_CREATED in flags ==> current.Str?)
    }
  }

  // ---------------------------------------------------------------------------------------------
  // Specification: the registry as the list of its variables, oldest first

  /** `fatal` is Com_Error(ERR_FATAL), which does not return. */
  datatype State = State(vars: seq<Cvar>, cheats: bool, cheating: bool, fatal: bool)

  /** Cvar_ValidateString. */
  predicate ValidName(s: string) { '\\' !in s && '"' !in s && ';' !in s }

  /** The scan of cvar_vars, newest variable first, among the first `n`. */
  function Find(vars: seq<Cvar>, n: nat, name: string): (r: int)
    requires n <= |vars|
    ensures NIL <= r < n
    ensures r >= 0 ==> EqualFold(name, vars[r].name)
    ensures r < 0 ==> forall i :: 0 <= i < n ==> !EqualFold(name, vars[i].name)
  {
    if n == 0 then NIL else if EqualFold(name, vars[n - 1].name) then n - 1 else Find(vars, n - 1, name)
  }

  function ScanVar(vars: seq<Cvar>, name: string): (r: int)
    ensures NIL <= r < |vars|
  {
    Find(vars, |vars|, name)
  }

  /** Cvar_ValueToStr. */
  function ToStr(v: Value): string {
    match v
    case Bool(b) => if b then "1" else "0"
    case Int(i) => Dec(i)
    case Str(s) => s
  }

  /** A value Cvar_SetVariant does not take: an equal one (strings up to case), or an integer out of range. */
  predicate Refused(v: Cvar, value: Value) {
    match (v.current, value)
    case (Bool(a), Bool(b)) => a == b
    case (Int(a), Int(b)) => a == b || !(v.imin <= b <= v.imax)
    case (Str(a), Str(b)) => EqualFold(a, b)
    case _ => false
  }

  /** Cvar_SetVariant. */
  function VariantSet(v: Cvar, value: Value, force: bool, cheats: bool): (r: Cvar)
    ensures r.name == v.name && r.flags == v.flags && r.reset == v.reset
    ensures v.current.Kind() == v.latched.Kind() == value.Kind()
        ==> r.current.Kind() == r.latched.Kind() == value.Kind()
  {
    if !force && (ROM in v.flags || INIT in v.flags || (CHEAT in v.flags && !cheats)) then v
    else if Refused(v, value) then v
    else v.(current := if !force && LATCH in v.flags then v.current else value, latched := value)
  }

  /** The value a text stands for in a variable of a type, if any; a boolean takes the low byte of a number. */
  datatype Parsed = Some(value: Value) | None

  function Parse(kind: Kind, text: string): (p: Parsed)
    ensures p.Some? ==> p.value.Kind() == kind
  {
    match kind
    case KBool =>
      if IsInteger(text) then Some(Bool(Atoi(text) % 256 != 0))
      else if EqualFold(text, "true") then Some(Bool(true))
      else if EqualFold(text, "false") then Some(Bool(false))
      else None
    case KInt => if IsInteger(text) then Some(Int(Atoi(text))) else None
    case KString => Some(Str(text))
  }

  /** Cvar_Set2 on a variable that exists. */
  function SetFound(v: Cvar, text: string, force: bool, cheats: bool): (r: Cvar)
    ensures r.name == v.name && r.flags == v.flags && r.reset == v.reset
    ensures v.current.Kind() == v.latched.Kind() ==> r.current.Kind() == r.latched.Kind() == v.current.Kind()
  {
    if !force && (ROM in v.flags || INIT in v.flags) then v else
    match Parse(v.current.Kind(), text)
    case Some(value) => VariantSet(v, value, force, cheats)
    case None => v
  }

  function Fresh(name: string, flags: set<Flag>, value: Value, imin: int, imax: int): Cvar {
    Cvar(name, flags, value, value, value, imin, imax)
  }

  /** What is left in the value union when a variable changes type: a freed string is a null pointer. */
  function Retyped(v: Value, kind: Kind): (r: Value)
    ensures r.Kind() == kind
  {
    if v.Kind() == kind && !v.Str? then v
    else match kind
         case KBool => Bool(false)
         case KInt => Int(0)
         case KString => Str("")
  }

  /** The variable that Cvar_Register leaves when the name exists: the new reset value, limits and flags, and the
      latched value taken as the current one. */
  function Reregistered(v: Cvar, flags: set<Flag>, value: Value, imin: int, imax: int, cheats: bool): (r: Cvar)
    ensures r.name == v.name && r.reset == value && r.current.Kind() == r.latched.Kind() == value.Kind()
  {
    var kept := if USER_CREATED in v.flags && USER_CREATED !in flags then v.flags - {USER_CREATED} else v.flags;
    var (lo, hi) := if value.Int? then (imin, imax) else (v.imin, v.imax);
    var text := ToStr(v.latched);
    if value.Str? then
      // the strings were freed, so no old value can be equal
      Cvar(v.name, kept + flags, Str(text), Str(text), value, lo, hi)
    else
      var w := Cvar(v.name, kept + flags, Retyped(v.current, value.Kind()), Retyped(v.latched, value.Kind()), value,
          lo, hi);
      SetFound(w, text, true, cheats)
  }

  /** Cvar_ValidateNewVar. */
  predicate ValidNew(name: string, value: Value, imin: int, imax: int) {
    ValidName(name) && (value.Int? ==> imin <= value.i <= imax)
  }

  /** Cvar_Register. */
  function RegisterState(st: State, name: string, flags: set<Flag>, value: Value, imin: int, imax: int): State {
    if !ValidNew(name, value, imin, imax) then st.(fatal := true) else
    var k := ScanVar(st.vars, name);
    if k < 0 then
      if |st.vars| >= MAX_CVARS then st.(fatal := true)
      else st.(vars := st.vars + [Fresh(name, flags, value, imin, imax)])
    else
      var v := st.vars[k];
      if (ROM in flags || (CHEAT in flags && !st.cheating)) && USER_CREATED in v.flags then
        st.(vars := st.vars[k := Fresh(name, flags, value, imin, imax)])
      else if v.current.Kind() != value.Kind() && USER_CREATED !in v.flags then st.(fatal := true)
      else st.(vars := st.vars[k := Reregistered(v, flags, value, imin, imax, st.cheats)])
  }

  /** Cvar_Set2; a name that is not known becomes a string variable. */
  function SetByName(st: State, name: string, text: string, force: bool): State {
    if !ValidName(name) then st else
    var k := ScanVar(st.vars, name);
    if k >= 0 then st.(vars := st.vars[k := SetFound(st.vars[k], text, force, st.cheats)])
    else RegisterState(st, name, if force then {} else {USER_CREATED}, Str(text), 0, 0)
  }

  // ---------------------------------------------------------------------------------------------
  // Names are unique up to case, whatever is done

  ghost predicate Unique(vars: seq<Cvar>) {
    forall i, j :: 0 <= i < j < |vars| ==> !EqualFold(vars[i].name, vars[j].name)
  }

  ghost predicate AllTyped(vars: seq<Cvar>) {
    forall i :: 0 <= i < |vars| ==> vars[i].Typed()
  }

  /** The calls that change the registry. */
  datatype Call =
    | CallRegister(name: string, flags: set<Flag>, value: Value, imin: int, imax: int)
    | CallSet(name: string, text: string, force: bool)
    | CallFlag(name: string, flag: Flag)

  /** User-created variables are strings: the callers register no others. */
  predicate Proper(c: Call) {
    (c.CallRegister? && USER_CREATED in c.flags ==> c.value.Str?) && (c.CallFlag? ==> c.flag != USER_CREATED)
  }

  function AddFlag(st: State, name: string, flag: Flag): State {
    var k := ScanVar(st.vars, name);
    if k < 0 then st else st.(vars := st.vars[k := st.vars[k].(flags := st.vars[k].flags + {flag})])
  }

  function Do(st: State, c: Call): State {
    match c
    case CallRegister(name, flags, value, imin, imax) => RegisterState(st, name, flags, value, imin, imax)
    case CallSet(name, text, force) => SetByName(st, name, text, force)
    case CallFlag(name, flag) => AddFlag(st, name, flag)
  }

  function DoAll(st: State, calls: seq<Call>): State {
    if calls == [] then st else Do(DoAll(st, calls[..|calls| - 1]), calls[|calls| - 1])
  }

  ghost predicate Sound(st: State) {
    Unique(st.vars) && AllTyped(st.vars) && |st.vars| <= MAX_CVARS
  }

  lemma EqualFoldEquivalence(a: string, b: string, c: string)
    ensures EqualFold(a, b) ==> EqualFold(b, a)
    ensures EqualFold(a, b) && EqualFold(b, c) ==> EqualFold(a, c)
  {
  }

  /** A slot whose new name folds to the old one keeps the names unique. */
  lemma UniqueUpdate(vars: seq<Cvar>, k: nat, v: Cvar)
    requires Unique(vars) && k < |vars| && EqualFold(v.name, vars[k].name)
    ensures Unique(vars[k := v])
  {
    var w := vars[k := v];
    forall i, j | 0 <= i < j < |w|
      ensures !EqualFold(w[i].name, w[j].name)
    {
      EqualFoldEquivalence(v.name, vars[k].name, vars[j].name);
      EqualFoldEquivalence(vars[k].name, v.name, vars[j].name);
      EqualFoldEquivalence(vars[i].name, v.name, vars[k].name);
    }
  }

  lemma UniquePush(vars: seq<Cvar>, v: Cvar)
    requires Unique(vars) && ScanVar(vars, v.name) < 0
    ensures Unique(vars + [v])
  {
    forall i | 0 <= i < |vars|
      ensures !EqualFold(vars[i].name, v.name)
    {
      EqualFoldEquivalence(vars[i].name, v.name, v.name);
    }
  }

  lemma SelfFold(a: string)
    ensures EqualFold(a, a)
  {
  }

  /** One slot rewritten by a variable of the same name and type discipline. */
  lemma SoundUpdate(st: State, k: nat, v: Cvar)
    requires Sound(st) && k < |st.vars| && EqualFold(v.name, st.vars[k].name) && v.Typed()
    ensures Sound(st.(vars := st.vars[k := v]))
  {
    UniqueUpdate(st.vars, k, v);
  }

  lemma RegisterKeepsSound(st: State, name: string, flags: set<Flag>, value: Value, imin: int, imax: int)
    requires Sound(st) && (USER_CREATED in flags ==> value.Str?)
    ensures Sound(RegisterState(st, name, flags, value, imin, imax))
  {
    hide Unique, EqualFold, SetFound, Dec;
    var k := ScanVar(st.vars, name);
    if k >= 0 {
      SelfFold(st.vars[k].name);
      SoundUpdate(st, k, Fresh(name, flags, value, imin, imax));
      var v := st.vars[k];
      if v.current.Kind() == value.Kind() || USER_CREATED in v.flags {
        SoundUpdate(st, k, Reregistered(v, flags, value, imin, imax, st.cheats));
      }
    } else {
      UniquePush(st.vars, Fresh(name, flags, value, imin, imax));
    }
  }

  /** Every call keeps the registry sound: names unique up to case, values of the variable's type. */
  lemma CallKeepsSound(st: State, c: Call)
    requires Sound(st) && Proper(c)
    ensures Sound(Do(st, c))
  {
    hide Unique, EqualFold, SetFound, RegisterState;
    match c
    case CallRegister(name, flags, value, imin, imax) => RegisterKeepsSound(st, name, flags, value, imin, imax);
    case CallSet(name, text, force) =>
      var k := ScanVar(st.vars, name);
      if k >= 0 {
        SelfFold(st.vars[k].name);
        SoundUpdate(st, k, SetFound(st.vars[k], text, force, st.cheats));
      } else {
        RegisterKeepsSound(st, name, if force then {} else {USER_CREATED}, Str(text), 0, 0);
      }
    case CallFlag(name, flag) =>
      var k := ScanVar(st.vars, name);
      if k >= 0 {
        SelfFold(st.vars[k].name);
        SoundUpdate(st, k, st.vars[k].(flags := st.vars[k].flags + {flag}));
      }
  }

  lemma {:induction false} RunKeepsSound(st: State, calls: seq<Call>)
    requires Sound(st) && forall i :: 0 <= i < |calls| ==> Proper(calls[i])
    ensures Sound(DoAll(st, calls))
  {
    if calls != [] {
      RunKeepsSound(st, calls[..|calls| - 1]);
      CallKeepsSound(DoAll(st, calls[..|calls| - 1]), calls[|calls| - 1]);
    }
  }

  // ---------------------------------------------------------------------------------------------
  // The hash index

  /** The sum in generateHashValue over the first `n` characters. */
  function HashSum(s: string, n: nat): int
    requires n <= |s|
  {
    if n == 0 then 0 else HashSum(s, n - 1) + Signed(Lower(s[n - 1])) * (n - 1 + 119)
  }

  /** generateHashValue; the mask keeps the low nine bits. */
  function Hash(s: string): (h: nat)
    ensures h < FILE_HASH_SIZE
  {
    HashSum(s, |s|) % 512
  }

  lemma {:induction false} FoldHashSum(a: string, b: string, n: nat)
    requires EqualFold(a, b) && n <= |a|
    ensures HashSum(a, n) == HashSum(b, n)
  {
    if n > 0 {
      FoldHashSum(a, b, n - 1);
      FoldsAgree(a[n - 1], b[n - 1]);
    }
  }

  /** Names that are equal up to case lie in one bucket. */
  lemma FoldHash(a: string, b: string)
    requires EqualFold(a, b)
    ensures Hash(a) == Hash(b)
  {
    FoldHashSum(a, b, |a|);
  }

  /** The newest of the first `n` variables in bucket `h`. */
  function Last(vars: seq<Cvar>, n: nat, h: nat): (r: int)
    requires n <= |vars|
    ensures NIL <= r < n
    ensures r >= 0 ==> Hash(vars[r].name) == h
  {
    if n == 0 then NIL else if Hash(vars[n - 1].name) == h then n - 1 else Last(vars, n - 1, h)
  }

  /** Walking a bucket from its newest variable finds what walking the whole list finds. */
  lemma {:induction false} FindInBucket(vars: seq<Cvar>, n: nat, name: string)
    requires n <= |vars|
    ensures var k := Last(vars, n, Hash(name));
            Find(vars, n, name)
                == if k < 0 then NIL else if EqualFold(name, vars[k].name) then k else Find(vars, k, name)
  {
    if n > 0 {
      if EqualFold(name, vars[n - 1].name) {
        FoldHash(name, vars[n - 1].name);
      }
      FindInBucket(vars, n - 1, name);
    }
  }

  lemma {:induction false} LastUpdate(vars: seq<Cvar>, k: nat, v: Cvar, n: nat, h: nat)
    requires k < |vars| && n <= |vars| && Hash(v.name) == Hash(vars[k].name)
    ensures Last(vars[k := v], n, h) == Last(vars, n, h)
  {
    if n > 0 {
      LastUpdate(vars, k, v, n - 1, h);
    }
  }

  lemma {:induction false} LastPush(vars: seq<Cvar>, v: Cvar, n: nat, h: nat)
    requires n <= |vars|
    ensures Last(vars + [v], n, h) == Last(vars, n, h)
  {
    if n > 0 {
      LastPush(vars, v, n - 1, h);
    }
  }

  /** A variable in the pool, with its links in the list of all variables and in its bucket. */
  datatype Slot = Slot(v: Cvar, next: int, hashNext: int)

  ghost predicate SlotOk(s: Slot, vars: seq<Cvar>, i: nat)
    requires i < |vars|
  {
    s.v == vars[i] && s.next == i - 1 && s.hashNext == Last(vars, i, Hash(vars[i].name))
  }

  class Registry {
    const pool: array<Slot>
    const hashTable: array<int>
    var numIndexes: nat
    var cvar_vars: int
    var cheats: bool
    var cheating: bool
    ghost var vars: seq<Cvar>

    /** The list runs through the pool from the newest variable to the oldest, each bucket through its own. */
    ghost predicate Linked()
      reads this, pool, hashTable
    {
      && pool.Length == MAX_CVARS && hashTable.Length == FILE_HASH_SIZE
      && numIndexes == |vars| <= MAX_CVARS && cvar_vars == numIndexes - 1
      && (forall i: nat :: i < |vars| ==> SlotOk(pool[i], vars, i))
      && (forall h: nat :: h < FILE_HASH_SIZE ==> hashTable[h] == Last(vars, |vars|, h))
    }

    ghost function St(): State
      reads this
    {
      State(vars, cheats, cheating, false)
    }

    ghost predicate Valid()
      reads this, pool, hashTable
    {
      Linked() && Sound(St())
    }

    constructor (cheats: bool, cheating: bool)
      ensures Valid() && vars == [] && this.cheats == cheats && this.cheating == cheating
      ensures fresh(pool) && fresh(hashTable)
    {
      pool := new Slot[MAX_CVARS](_ => Slot(Fresh("", {}, Bool(false), 0, 0), NIL, NIL));
      hashTable := new int[FILE_HASH_SIZE](_ => NIL);
      numIndexes, cvar_vars, this.cheats, this.cheating := 0, NIL, cheats, cheating;
      vars := [];
    }

    /** generateHashValue. */
    method HashValue(name: string) returns (hash: nat)
      ensures hash == Hash(name)
    {
      var sum, i := 0, 0;
      while i < |name|
        invariant 0 <= i <= |name| && sum == HashSum(name, i)
      {
        sum := sum + Signed(Lower(name[i])) * (i + 119);
        i := i + 1;
      }
      hash := sum % 512;
    }

    /** Cvar_FindVar: the walk through the bucket agrees with a scan of the list. */
    method FindVar(name: string) returns (k: int)
      requires Linked()
      ensures k == ScanVar(vars, name)
    {
      var hash := HashValue(name);
      k := hashTable[hash];
      ghost var n: nat := |vars|;
      FindInBucket(vars, n, name);
      while k != NIL
        invariant NIL <= k < |vars| && n <= |vars|
        invariant k == Last(vars, n, Hash(name)) && Find(vars, n, name) == ScanVar(vars, name)
        decreases k
      {
        FindInBucket(vars, n, name);
        if EqualFold(name, pool[k].v.name) {
          return;
        }
        n := k;
        k := pool[k].hashNext;
      }
      FindInBucket(vars, n, name);
    }

    /** Rewrites a variable in place; it stays linked, since its name folds to the old one. */
    method Store(k: nat, v: Cvar)
      requires Linked() && k < |vars| && Hash(v.name) == Hash(vars[k].name)
      modifies this`vars, pool
      ensures Linked() && vars == old(vars)[k := v]
    {
      forall n: nat, h: nat | n <= |vars|
        ensures Last(vars[k := v], n, h) == Last(vars, n, h)
      {
        LastUpdate(vars, k, v, n, h);
      }
      pool[k] := pool[k].(v := v);
      vars := vars[k := v];
    }

    /** Links a new variable in at the head of the list and of its bucket. */
    method Link(v: Cvar)
      requires Linked() && numIndexes < MAX_CVARS
      modifies this`vars, this`numIndexes, this`cvar_vars, pool, hashTable
      ensures Linked() && vars == old(vars) + [v]
    {
      var hash := HashValue(v.name);
      pool[numIndexes] := Slot(v, cvar_vars, hashTable[hash]);
      cvar_vars := numIndexes;
      hashTable[hash] := numIndexes;
      numIndexes := numIndexes + 1;
      forall n: nat, h: nat | n <= |vars|
        ensures Last(vars + [v], n, h) == Last(vars, n, h)
      {
        LastPush(vars, v, n, h);
      }
      vars := vars + [v];
    }

    /** Cvar_SetVariant. */
    method SetVariant(k: nat, value: Value, force: bool)
      requires Linked() && k < |vars|
      modifies this`vars, pool
      ensures Linked() && vars == old(vars)[k := VariantSet(old(vars)[k], value, force, cheats)]
    {
      var v := pool[k].v;
      var latch := false;
      if !force {
        if ROM in v.flags || INIT in v.flags || (CHEAT in v.flags && !cheats) {
          return;
        }
        latch := LATCH in v.flags;
      }
      if Refused(v, value) {
        return;
      }
      if !latch {
        v := v.(current := value);
      }
      v := v.(latched := value);
      Store(k, v);
    }

    /** The part of Cvar_Set2 for a variable that exists. */
    method SetExisting(k: nat, text: string, force: bool)
      requires Linked() && k < |vars|
      modifies this`vars, pool
      ensures Linked() && vars == old(vars)[k := SetFound(old(vars)[k], text, force, cheats)]
    {
      var v := pool[k].v;
      if !force && (ROM in v.flags || INIT in v.flags) {
        return;
      }
      match Parse(v.current.Kind(), text) {
        case Some(value) => SetVariant(k, value, force);
        case None =>
      }
    }

    /** Cvar_Register; tells whether it ended in a fatal error, which leaves the registry as it was. */
    method Register(name: string, flags: set<Flag>, value: Value, imin: int, imax: int) returns (fatal: bool)
      requires Valid() && (USER_CREATED in flags ==> value.Str?)
      modifies this`vars, this`numIndexes, this`cvar_vars, pool, hashTable
      ensures Valid() && St().(fatal := fatal) == RegisterState(old(St()), name, flags, value, imin, imax)
    {
      hide Unique, SetFound, Reregistered, ValidNew;
      RegisterKeepsSound(St(), name, flags, value, imin, imax);
      if !ValidNew(name, value, imin, imax) {
        return true;
      }
      var k := FindVar(name);
      if k < 0 {
        if numIndexes >= MAX_CVARS {
          return true;
        }
        Link(Fresh(name, flags, value, imin, imax));
        return false;
      }
      var v := pool[k].v;
      FoldHash(name, v.name);
      if (ROM in flags || (CHEAT in flags && !cheating)) && USER_CREATED in v.flags {
        Store(k, Fresh(name, flags, value, imin, imax));
        return false;
      }
      if v.current.Kind() != value.Kind() && USER_CREATED !in v.flags {
        return true;
      }
      Reregister(k, flags, value, imin, imax);
      fatal := false;
    }

    /** The re-registration of variable `k`: reset value, limits, flags and type, then the latched value is set. */
    method Reregister(k: nat, flags: set<Flag>, value: Value, imin: int, imax: int)
      requires Linked() && k < |vars|
      modifies this`vars, pool
      ensures Linked() && vars == old(vars)[k := Reregistered(old(vars)[k], flags, value, imin, imax, cheats)]
    {
      var v := pool[k].v;
      var text := ToStr(v.latched);
      var w := v.(reset := value, current := Retyped(v.current, value.Kind()),
          latched := Retyped(v.latched, value.Kind()));
      if USER_CREATED in v.flags && USER_CREATED !in flags {
        w := w.(flags := w.flags - {USER_CREATED});
      }
      if value.Int? {
        w := w.(imin := imin, imax := imax);
      }
      w := w.(flags := w.flags + flags);
      if value.Str? {
        Store(k, w.(current := Str(text), latched := Str(text)));
      } else {
        Store(k, w);
        SetExisting(k, text, true);
      }
    }

    /** Cvar_Set2; a name that is not known becomes a string variable. */
    method Set2(name: string, text: string, force: bool) returns (fatal: bool)
      requires Valid()
      modifies this`vars, this`numIndexes, this`cvar_vars, pool, hashTable
      ensures Valid() && St().(fatal := fatal) == SetByName(old(St()), name, text, force)
    {
      hide Unique, SetFound;
      CallKeepsSound(St(), CallSet(name, text, force));
      if !ValidName(name) {
        return false;
      }
      var k := FindVar(name);
      if k >= 0 {
        SetExisting(k, text, force);
        return false;
      }
      fatal := Register(name, if force then {} else {USER_CREATED}, Str(text), 0, 0);
    }

    /** Cvar_Set_f; `args` are the words of the command line. */
    method SetF(args: seq<string>) returns (fatal: bool)
      requires Valid()
      modifies this`vars, this`numIndexes, this`cvar_vars, pool, hashTable
      ensures Valid() && St().(fatal := fatal) == SetCommand(old(St()), args)
    {
      hide SetByName, Unique;
      if |args| < 3 {
        return false;
      }
      var combined := Combined(args);
      fatal := Set2(args[1], combined, false);
    }

    /** Cvar_SetA_f. */
    method SetAF(args: seq<string>) returns (fatal: bool)
      requires Valid()
      modifies this`vars, this`numIndexes, this`cvar_vars, pool, hashTable
      ensures Valid() && St().(fatal := fatal) == SetACommand(old(St()), args)
    {
      hide SetCommand, Unique;
      if |args| < 3 {
        ShortSet(St(), args);
        return false;
      }
      fatal := SetF(args);
      CallKeepsSound(St(), CallFlag(args[1], ARCHIVE));
      var k := FindVar(args[1]);
      if k < 0 {
        return;
      }
      Store(k, pool[k].v.(flags := pool[k].v.flags + {ARCHIVE}));
    }

    /** Cvar_WriteVariables: the walk along the list writes the archived variables, newest first. */
    method WriteVariables() returns (text: string)
      requires Linked()
      ensures text == ConfigText(vars)
    {
      hide ConfigText, SavedLine;
      text := "";
      var k := cvar_vars;
      ConfigTextStep(vars, |vars|, "");
      while k != NIL
        invariant NIL <= k < |vars|
        invariant text + ConfigText(vars[..k + 1]) == ConfigText(vars)
        decreases k
      {
        ConfigTextStep(vars, k + 1, text);
        text := text + SavedLine(pool[k].v);
        k := pool[k].next;
      }
      ConfigTextStep(vars, 0, text);
    }
  }

  // ---------------------------------------------------------------------------------------------
  // The configuration text

  const LINE_BUFFER := 8192

  /** The latched value even if it has not taken effect, unless it is empty. */
  function SavedText(v: Cvar): string {
    if ToStr(v.latched) != [] then ToStr(v.latched) else ToStr(v.current)
  }

  predicate Saved(v: Cvar) {
    ARCHIVE in v.flags && |v.name| + |SavedText(v)| + 10 <= LINE_BUFFER
  }

  /** What is written for a variable: a seta command, or nothing. */
  function SavedLine(v: Cvar): string {
    if Saved(v) then "seta " + v.name + " \"" + SavedText(v) + "\"\n" else ""
  }

  function ConfigText(vars: seq<Cvar>): string {
    if vars == [] then "" else SavedLine(vars[|vars| - 1]) + ConfigText(vars[..|vars| - 1])
  }

  // ---------------------------------------------------------------------------------------------
  // The set and seta commands

  const COMBINED_BUFFER := 8192

  /** The arguments joined by blanks, up to the length counted in `l`; the count leaves out one character of each. */
  function Combine(args: seq<string>, l: nat): string {
    if args == [] then "" else
    var len := if args[0] == [] then 0 else |args[0]| - 1;
    if l + len >= COMBINED_BUFFER - 2 then ""
    else args[0] + (if |args| > 1 then " " else "") + Combine(args[1..], l + len)
  }

  /** Cvar_Set_f. */
  function SetCommand(st: State, args: seq<string>): State {
    if |args| < 3 then st else SetByName(st, args[1], Combine(args[2..], 0), false)
  }

  /** Cvar_SetA_f. */
  function SetACommand(st: State, args: seq<string>): State {
    if |args| < 3 then st else AddFlag(SetCommand(st, args), args[1], ARCHIVE)
  }

  lemma ShortSet(st: State, args: seq<string>)
    requires |args| < 3
    ensures SetACommand(st, args) == st
  {
  }

  lemma CombineStep(args: seq<string>, i: nat, l: nat, before: string)
    requires i < |args|
    ensures var len := if args[i] == [] then 0 else |args[i]| - 1;
            var added := if i != |args| - 1 then before + args[i] + " " else before + args[i];
            before + Combine(args[i..], l)
            == if l + len >= COMBINED_BUFFER - 2 then before else added + Combine(args[i + 1..], l + len)
  {
    var len := if args[i] == [] then 0 else |args[i]| - 1;
    assert args[i..][1..] == args[i + 1..];
    var more := Combine(args[i + 1..], l + len);
    assert before + (args[i] + " " + more) == before + args[i] + " " + more;
    assert before + (args[i] + "" + more) == before + args[i] + more;
    assert before + "" == before;
  }

  /** The loop of Cvar_Set_f. */
  method Combined(args: seq<string>) returns (combined: string)
    requires |args| >= 3
    ensures combined == Combine(args[2..], 0)
  {
    hide Combine;
    combined := "";
    var i, l := 2, 0;
    assert "" + Combine(args[2..], 0) == Combine(args[2..], 0);
    while i < |args|
      invariant 2 <= i <= |args| && 0 <= l && combined + Combine(args[i..], l) == Combine(args[2..], 0)
    {
      CombineStep(args, i, l, combined);
      var len := if args[i] == [] then 0 else |args[i]| - 1;
      if l + len >= COMBINED_BUFFER - 2 {
        break;
      }
      combined := combined + args[i];
      if i != |args| - 1 {
        combined := combined + " ";
      }
      l := l + len;
      i := i + 1;
    }
    if i == |args| {
      NothingToCombine(args, i, l, combined);
    }
  }

  lemma NothingToCombine(args: seq<string>, i: nat, l: nat, before: string)
    requires i == |args|
    ensures before + Combine(args[i..], l) == before
  {
    assert args[i..] == [];
    assert before + "" == before;
  }

  lemma ConfigTextUnfold(vars: seq<Cvar>, n: nat)
    requires n <= |vars|
    ensures ConfigText(vars[..n]) == if n == 0 then "" else SavedLine(vars[n - 1]) + ConfigText(vars[..n - 1])
  {
    hide SavedLine;
    if n > 0 {
      var front := vars[..n];
      assert front[|front| - 1] == vars[n - 1] && front[..|front| - 1] == vars[..n - 1];
    }
  }

  lemma Glue(a: string, b: string, c: string)
    ensures a + (b + c) == a + b + c && a + "" == a && "" + a == a
  {
  }

  lemma ConfigTextStep(vars: seq<Cvar>, n: nat, before: string)
    requires n <= |vars|
    ensures n == |vars| ==> "" + ConfigText(vars[..n]) == ConfigText(vars)
    ensures n == 0 ==> before + ConfigText(vars[..n]) == before
    ensures n > 0 ==> before + ConfigText(vars[..n]) == before + SavedLine(vars[n - 1]) + ConfigText(vars[..n - 1])
  {
    hide SavedLine, ConfigText;
    ConfigTextUnfold(vars, n);
    Glue(ConfigText(vars), "", "");
    if n == |vars| {
      assert vars[..n] == vars;
    }
    if n == 0 {
      Glue(before, "", "");
    } else {
      Glue(before, SavedLine(vars[n - 1]), ConfigText(vars[..n - 1]));
    }
  }
}
