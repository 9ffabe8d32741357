/** The JWT signing secret across boots and backends (packages/secrets/src/jwt-secret.ts, migrate.ts,
    detect.ts, file0600.ts, native-keyring.ts), with a crash possible between any two durable writes. */
module JwtSecret {
  import opened Common

  datatype Backend = File | Native

  datatype Stores = Stores(file: Option<string>, native: Option<string>) {
    function At(b: Backend): Option<string> {
      if b.File? then file else native
    }
  }

  datatype Effect = Put(b: Backend, value: string) | Erase(b: Backend)

  function Apply(s: Stores, e: Effect): Stores {
    match e
    case Put(b, v) => if b.File? then s.(file := Some(v)) else s.(native := Some(v))
    case Erase(b) => if b.File? then s.(file := None) else s.(native := None)
  }

  function ApplyAll(s: Stores, es: seq<Effect>): Stores
    decreases |es|
  {
    if es == [] then s else ApplyAll(Apply(s, es[0]), es[1..])
  }

  /** A file is created or truncated before its bytes are written; the native store's write is one step. */
  function StoreEffects(b: Backend, value: string): seq<Effect> {
    if b.File? then [Put(File, ""), Put(File, value)] else [Put(Native, value)]
  }

  /** How the native store answers about this key during one boot. */
  datatype Access = Usable | Broken | Ambiguous

  datatype DetectedBy = Override | Probe | Fallback

  /** One boot without a secret in its environment. `drops` and `removeFails` say that the write into a
      migration's target is silently lost, or that the old copy cannot be removed. */
  datatype Boot = Boot(
    backend: Backend, source: DetectedBy, platformHasNative: bool, access: Access,
    drops: bool, removeFails: bool, minted: string)
  {
    predicate Possible() {
      && (source.Probe? ==> backend.Native? && !access.Broken?)
      && (source.Fallback? ==> backend.File?)
      && (backend.Native? ==> platformHasNative)
    }

    predicate CanUse(b: Backend) {
      b.File? || access.Usable?
    }
  }

  datatype Origin = Migrated | Existing | Generated

  datatype Outcome = Booted(secret: string, origin: Origin) | BootFailed | Crashed

  /** The durable writes of a call in order, and how it ends if none of them is cut short. */
  datatype Effects = Effects(writes: seq<Effect>, outcome: Outcome)

  // ---------------------------------------------------------------- what a boot does

  function LookbackFor(boot: Boot): Option<Backend> {
    if !boot.backend.File? then Some(File)
    else if !boot.source.Override? then None
    else if boot.platformHasNative then Some(Native)
    else None
  }

  /** Only a file, or a native store that answers, is read for a prior value; a broken native store
      counts as holding none, and an ambiguous entry fails the boot. */
  function Lookback(s: Stores, boot: Boot): Result<Option<string>, ()> {
    match LookbackFor(boot)
    case None => Ok(None)
    case Some(b) =>
      if boot.CanUse(b) then Ok(s.At(b))
      else if boot.access.Ambiguous? then Err(())
      else Ok(None)
  }

  function Migration(s: Stores, boot: Boot, from: Backend, value: string): Effects {
    if from == boot.backend then Effects([], Booted(value, Existing))
    else if !boot.CanUse(boot.backend) then Effects([], BootFailed)
    else
      var writes := if boot.drops then [] else StoreEffects(boot.backend, value);
      if ApplyAll(s, writes).At(boot.backend) != Some(value) then Effects(writes, BootFailed)
      else Effects(writes + (if boot.removeFails then [] else [Erase(from)]), Booted(value, Migrated))
  }

  function Direct(s: Stores, boot: Boot): Effects {
    if !boot.CanUse(boot.backend) then Effects([], BootFailed)
    else
      match s.At(boot.backend)
      case Some(v) => Effects([], Booted(v, Existing))
      case None => Effects(StoreEffects(boot.backend, boot.minted), Booted(boot.minted, Generated))
  }

  function BootEffects(s: Stores, boot: Boot): Effects {
    match Lookback(s, boot)
    case Err(_) => Effects([], BootFailed)
    case Ok(None) => Direct(s, boot)
    case Ok(Some(v)) => Migration(s, boot, LookbackFor(boot).value, v)
  }

  function Take(es: seq<Effect>, n: nat): seq<Effect> {
    if n < |es| then es[..n] else es
  }

  /** One boot that gets as far as `writes` durable writes. */
  datatype Attempt = Attempt(boot: Boot, writes: nat)

  function AfterAttempt(s: Stores, a: Attempt): Stores {
    ApplyAll(s, Take(BootEffects(s, a.boot).writes, a.writes))
  }

  function OutcomeOf(s: Stores, a: Attempt): Outcome {
    var plan := BootEffects(s, a.boot);
    if |plan.writes| <= a.writes then plan.outcome else Crashed
  }

  // ---------------------------------------------------------------- as it runs

  /** Both stores, and how many more durable writes happen before the power goes. */
  class SecretStores {
    var stores: Stores
    var budget: nat

    constructor (s: Stores, budget: nat)
      ensures stores == s && this.budget == budget
    {
      stores, this.budget := s, budget;
    }

    method Write(e: Effect) returns (alive: bool)
      modifies this
      ensures alive == (old(budget) > 0)
      ensures stores == ApplyAll(old(stores), Take([e], old(budget)))
      ensures budget == if alive then old(budget) - 1 else 0
    {
      if budget == 0 {
        return false;
      }
      stores := Apply(stores, e);
      budget := budget - 1;
      alive := true;
    }

    method Store(b: Backend, value: string) returns (alive: bool)
      modifies this
      ensures alive == (old(budget) >= |StoreEffects(b, value)|)
      ensures stores == ApplyAll(old(stores), Take(StoreEffects(b, value), old(budget)))
      ensures budget == if alive then old(budget) - |StoreEffects(b, value)| else 0
    {
      if b.Native? {
        alive := Write(Put(Native, value));
        return;
      }
      alive := Write(Put(File, ""));
      if alive {
        alive := Write(Put(File, value));
      }
      assert [Put(File, ""), Put(File, value)][1..] == [Put(File, value)];
      assert [Put(File, ""), Put(File, value)][..1] == [Put(File, "")];
    }

    /** Copy, read back, and only then remove the source. */
    method Migrate(boot: Boot, from: Backend, value: string) returns (outcome: Outcome)
      modifies this
      ensures var plan := Migration(old(stores), boot, from, value);
              && stores == ApplyAll(old(stores), Take(plan.writes, old(budget)))
              && outcome == if |plan.writes| <= old(budget) then plan.outcome else Crashed
    {
      if from == boot.backend {
        return Booted(value, Existing);
      }
      if !boot.CanUse(boot.backend) {
        return BootFailed;
      }
      ghost var s, n := stores, budget;
      ghost var writes := if boot.drops then [] else StoreEffects(boot.backend, value);
      if !boot.drops {
        var alive := Store(boot.backend, value);
        if !alive {
          TakeOfPrefix(writes, [Erase(from)], n);
          return Crashed;
        }
      }
      assert stores == ApplyAll(s, writes) && budget == n - |writes|;
      if stores.At(boot.backend) != Some(value) {
        return BootFailed;
      }
      if !boot.removeFails {
        var alive := Write(Erase(from));
        ApplyThen(s, writes, Take([Erase(from)], n - |writes|));
        assert Take(writes + [Erase(from)], n) == writes + Take([Erase(from)], n - |writes|);
        if !alive {
          return Crashed;
        }
      } else {
        assert writes + [] == writes;
      }
      outcome := Booted(value, Migrated);
    }

    method ResolveJwtSecret(boot: Boot) returns (outcome: Outcome)
      modifies this
      ensures stores == AfterAttempt(old(stores), Attempt(boot, old(budget)))
      ensures outcome == OutcomeOf(old(stores), Attempt(boot, old(budget)))
    {
      var lookback := LookbackFor(boot);
      if lookback.Some? {
        if !boot.CanUse(lookback.value) && boot.access.Ambiguous? {
          return BootFailed;
        }
        var prior := if boot.CanUse(lookback.value) then stores.At(lookback.value) else None;
        if prior.Some? {
          outcome := Migrate(boot, lookback.value, prior.value);
          return;
        }
      }
      if !boot.CanUse(boot.backend) {
        return BootFailed;
      }
      var existing := stores.At(boot.backend);
      if existing.Some? {
        return Booted(existing.value, Existing);
      }
      var alive := Store(boot.backend, boot.minted);
      outcome := if alive then Booted(boot.minted, Generated) else Crashed;
    }
  }

  lemma TakeOfPrefix(a: seq<Effect>, b: seq<Effect>, n: nat)
    requires n < |a|
    ensures Take(a + b, n) == Take(a, n) && Take(a + [], n) == Take(a, n)
  {
  }

  lemma {:induction false} ApplyThen(s: Stores, a: seq<Effect>, b: seq<Effect>)
    ensures ApplyAll(s, a + b) == ApplyAll(ApplyAll(s, a), b)
    decreases |a|
  {
    if a == [] {
      assert a + b == b;
    } else {
      assert (a + b)[1..] == a[1..] + b;
      ApplyThen(Apply(s, a[0]), a[1..], b);
    }
  }

  lemma UpToThree(s: Stores, a: Effect, b: Effect, c: Effect)
    ensures ApplyAll(s, [a]) == Apply(s, a)
    ensures ApplyAll(s, [a, b]) == Apply(Apply(s, a), b)
    ensures ApplyAll(s, [a, b, c]) == Apply(Apply(Apply(s, a), b), c)
  {
    assert [a, b, c][1..] == [b, c] && [b, c][1..] == [c] && [a, b][1..] == [b];
    assert ApplyAll(s, [a]) == ApplyAll(Apply(s, a), []);
    assert ApplyAll(Apply(Apply(s, a), b), [c]) == ApplyAll(Apply(Apply(Apply(s, a), b), c), []);
    assert ApplyAll(Apply(s, a), [b]) == ApplyAll(Apply(Apply(s, a), b), []);
  }

  lemma Prefixes(a: Effect, b: Effect, c: Effect, n: nat)
    ensures Take([a], n) == if n == 0 then [] else [a]
    ensures Take([a, b], n) == if n == 0 then [] else if n == 1 then [a] else [a, b]
    ensures Take([a, b, c], n) == if n == 0 then [] else if n == 1 then [a] else if n == 2 then [a, b] else [a, b, c]
  {
  }

  // ---------------------------------------------------------------- what a boot comes to

  /** The store a boot looks into for a secret to bring along, and whether that look fails the boot. */
  ghost predicate BringsAlong(s: Stores, boot: Boot, v: string) {
    || (boot.backend == Native && s.file == Some(v))
    || (boot.backend == File && boot.source == Override && boot.platformHasNative && boot.access == Usable && s.native == Some(v))
  }

  /** When a boot that is not cut short fails: a native store that does not answer for the boot that is
      to use it, an ambiguous entry in one that is only looked into, or a copy that is lost on its way
      to a target that does not hold the same already. */
  lemma BootFailsIff(s: Stores, boot: Boot)
    ensures BootEffects(s, boot).outcome == BootFailed
       <==> || (boot.backend == Native && boot.access != Usable)
            || (boot.backend == File && boot.source == Override && boot.platformHasNative && boot.access == Ambiguous)
            || (boot.drops && exists v :: BringsAlong(s, boot, v) && s.file != s.native)
    ensures BootEffects(s, boot).outcome != Crashed
  {
    var p := Put(File, "");
    forall v | BringsAlong(s, boot, v)
      ensures ApplyAll(s, StoreEffects(boot.backend, v)).At(boot.backend) == Some(v)
    {
      UpToThree(s, p, Put(File, v), p);
      UpToThree(s, Put(Native, v), p, p);
    }
    if BootEffects(s, boot).outcome == BootFailed && boot.access == Usable {
      var from := if boot.backend == Native then s.file else s.native;
      assert from.Some? ==> BringsAlong(s, boot, from.value);
    }
  }

  /** What a boot that succeeds gives, and what the stores hold then. A secret found in the other store
      is moved: it is in the backend's store, and in the other one only if that could not be cleared.
      Otherwise the backend's own secret stays, or the minted one is stored. */
  lemma BootMovesOrKeepsOrMints(s: Stores, boot: Boot)
    requires BootEffects(s, boot).outcome.Booted?
    ensures var plan := BootEffects(s, boot);
            var after, v := ApplyAll(s, plan.writes), plan.outcome.secret;
            match plan.outcome.origin
            case Migrated =>
              && BringsAlong(s, boot, v)
              && after == if boot.backend == Native then Stores(if boot.removeFails then s.file else None, Some(v))
                          else Stores(Some(v), if boot.removeFails then s.native else None)
            case Existing =>
              && (forall w :: !BringsAlong(s, boot, w)) && after == s
              && Some(v) == (if boot.backend == Native then s.native else s.file)
            case Generated =>
              && (forall w :: !BringsAlong(s, boot, w)) && v == boot.minted
              && (if boot.backend == Native then s.native else s.file) == None
              && after == (if boot.backend == Native then Stores(s.file, Some(v)) else Stores(Some(v), s.native))
  {
    var v := BootEffects(s, boot).outcome.secret;
    var p, q := Put(File, ""), Put(File, v);
    UpToThree(s, p, q, Erase(Native));
    UpToThree(s, Put(Native, v), Erase(File), p);
    UpToThree(s, Erase(File), p, q);
    UpToThree(s, Erase(Native), p, q);
  }

  // ---------------------------------------------------------------- crashes during a migration

  /** Wherever a migration is cut short, and whatever its target does with the write, the value can
      still be read from one of the two stores. */
  lemma MigrationNeverLosesTheValue(s: Stores, boot: Boot, from: Backend, value: string, n: nat)
    requires s.At(from) == Some(value)
    ensures var after := ApplyAll(s, Take(Migration(s, boot, from, value).writes, n));
            after.file == Some(value) || after.native == Some(value)
  {
    var writes := Migration(s, boot, from, value).writes;
    var p, q := Put(File, ""), Put(File, value);
    MigrationWrites(s, boot, from, value);
    if writes == [Erase(from)] {
      UpToThree(s, Erase(from), p, q);
      Prefixes(Erase(from), p, q, n);
    } else if boot.backend.File? {
      UpToThree(s, p, q, Erase(Native));
      Prefixes(p, q, Erase(Native), n);
    } else {
      UpToThree(s, Put(Native, value), Erase(File), p);
      Prefixes(Put(Native, value), Erase(File), p, n);
    }
  }

  /** The writes of a migration: none, the copy, the copy and the removal, or, when the copy is lost
      on a target that held the value already, the removal alone. */
  lemma MigrationWrites(s: Stores, boot: Boot, from: Backend, value: string)
    ensures var writes, p, q := Migration(s, boot, from, value).writes, Put(File, ""), Put(File, value);
            || writes == []
            || (from != boot.backend && writes == [Erase(from)] && s.At(boot.backend) == Some(value))
            || (from.Native? && boot.backend.File? && (writes == [p, q] || writes == [p, q, Erase(Native)]))
            || (from.File? && boot.backend.Native? && (writes == [Put(Native, value)] || writes == [Put(Native, value), Erase(File)]))
  {
  }

  // ---------------------------------------------------------------- the secret over many boots

  /** Some store holds `v`, and no store holds anything else. */
  predicate Holds(s: Stores, v: string) {
    && (s.file == Some(v) || s.native == Some(v))
    && (s.file.Some? ==> s.file.value == v)
    && (s.native.Some? ==> s.native.value == v)
  }

  /** The file was cut short between its creation and its bytes. */
  predicate Torn(s: Stores, v: string) {
    s.file == Some("") && s.native == Some(v)
  }

  /** A boot onto the file backend that cannot see what the native store holds, and finds no file. */
  predicate MintsAnother(s: Stores, boot: Boot) {
    && boot.backend.File? && s.file.None?
    && (boot.source.Fallback? || boot.access.Broken? || !boot.platformHasNative)
  }

  predicate Keeps(s: Stores, boot: Boot, v: string) {
    var plan := BootEffects(s, boot);
    Holds(ApplyAll(s, plan.writes), v) && (plan.outcome.Booted? ==> plan.outcome.secret == v)
  }

  /** A boot that is not cut short keeps the secret, and every store that holds anything holding it,
      exactly when it is not one that mints another. */
  lemma BootKeepsSecretIff(s: Stores, boot: Boot, v: string)
    requires Holds(s, v) && boot.Possible() && boot.minted != v
    ensures Keeps(s, boot, v) <==> !MintsAnother(s, boot)
  {
    var writes := BootEffects(s, boot).writes;
    var p, q := Put(File, ""), Put(File, v);
    UpToThree(s, p, q, Erase(Native));
    UpToThree(s, Put(Native, v), Erase(File), p);
    UpToThree(s, Erase(File), p, q);
    UpToThree(s, Erase(Native), p, q);
    UpToThree(s, p, Put(File, boot.minted), p);
    MigrationWrites(s, boot, File, v);
    MigrationWrites(s, boot, Native, v);
  }

  /** Cut short anywhere, such a boot still leaves the secret in a store, with nothing else stored,
      unless the crash fell between the creation of the secret file and its bytes. */
  lemma InterruptedBootHoldsUnlessTorn(s: Stores, boot: Boot, v: string, n: nat)
    requires Holds(s, v) && boot.Possible() && !MintsAnother(s, boot)
    ensures var after := ApplyAll(s, Take(BootEffects(s, boot).writes, n));
            Holds(after, v) || (Torn(after, v) && boot.backend.File? && n == 1)
  {
    var p, q := Put(File, ""), Put(File, v);
    MigrationWrites(s, boot, File, v);
    MigrationWrites(s, boot, Native, v);
    UpToThree(s, p, q, Erase(Native));
    Prefixes(p, q, Erase(Native), n);
    UpToThree(s, Put(Native, v), Erase(File), p);
    Prefixes(Put(Native, v), Erase(File), p, n);
    UpToThree(s, Erase(File), p, q);
    Prefixes(Erase(File), p, q, n);
    UpToThree(s, Erase(Native), p, q);
    Prefixes(Erase(Native), p, q, n);
  }

  /** After such a crash, the next boot that ends gives the secret back exactly when it is another
      one forced onto the file backend with the native store readable. */
  lemma TornRecoversIff(s: Stores, boot: Boot, v: string)
    requires Torn(s, v) && v != "" && boot.Possible() && !boot.drops && BootEffects(s, boot).outcome.Booted?
    ensures Keeps(s, boot, v) <==> boot.backend.File? && boot.source.Override? && boot.platformHasNative && boot.access.Usable?
  {
    var p, q := Put(File, ""), Put(File, v);
    MigrationWrites(s, boot, File, "");
    MigrationWrites(s, boot, Native, v);
    UpToThree(s, p, q, Erase(Native));
    UpToThree(s, Put(Native, ""), Erase(File), p);
    UpToThree(s, Erase(File), p, q);
    UpToThree(s, Erase(Native), p, q);
  }

  /** A boot that looks at the native store whenever it looks for the secret: one onto a native store,
      or one forced onto the file backend while the native store answers. */
  predicate Steady(boot: Boot) {
    && boot.Possible()
    && (boot.backend.Native? || (boot.source.Override? && boot.platformHasNative && !boot.access.Broken?))
  }

  predicate TearsFile(s: Stores, a: Attempt) {
    Take(BootEffects(s, a.boot).writes, a.writes) == [Put(File, "")]
  }

  predicate SteadyRun(s: Stores, attempts: seq<Attempt>)
    decreases |attempts|
  {
    attempts == []
    || (Steady(attempts[0].boot) && !TearsFile(s, attempts[0]) && SteadyRun(AfterAttempt(s, attempts[0]), attempts[1..]))
  }

  /** Every boot that ends gives `v`, and `v` stays the one stored value. */
  predicate AlwaysGives(s: Stores, attempts: seq<Attempt>, v: string)
    decreases |attempts|
  {
    && Holds(s, v)
    && (attempts == []
        || (&& (OutcomeOf(s, attempts[0]).Booted? ==> OutcomeOf(s, attempts[0]).secret == v)
            && AlwaysGives(AfterAttempt(s, attempts[0]), attempts[1..], v)))
  }

  lemma SteadyNeverMints(s: Stores, boot: Boot, v: string)
    requires Holds(s, v) && Steady(boot)
    ensures !MintsAnother(s, boot)
    ensures BootEffects(s, boot).outcome.Booted? ==> BootEffects(s, boot).outcome.secret == v
  {
  }

  /** Whatever boots follow one another, and wherever they are cut short, the secret is the same one
      forever. */
  lemma {:induction false} SecretIsForever(s: Stores, attempts: seq<Attempt>, v: string)
    requires Holds(s, v) && SteadyRun(s, attempts)
    ensures AlwaysGives(s, attempts, v)
    decreases |attempts|
  {
    if attempts != [] {
      var a := attempts[0];
      SteadyNeverMints(s, a.boot, v);
      InterruptedBootHoldsUnlessTorn(s, a.boot, v, a.writes);
      TornIsTearing(s, a, v);
      SecretIsForever(AfterAttempt(s, a), attempts[1..], v);
    }
  }

  lemma TornIsTearing(s: Stores, a: Attempt, v: string)
    requires Holds(s, v) && Steady(a.boot) && !TearsFile(s, a)
    ensures Holds(AfterAttempt(s, a), v)
  {
    SteadyNeverMints(s, a.boot, v);
    InterruptedBootHoldsUnlessTorn(s, a.boot, v, a.writes);
    MigrationWrites(s, a.boot, File, v);
    MigrationWrites(s, a.boot, Native, v);
    var p, q := Put(File, ""), Put(File, v);
    Prefixes(p, q, Erase(Native), a.writes);
    Prefixes(Erase(File), p, q, a.writes);
    Prefixes(Erase(Native), p, q, a.writes);
    UpToThree(s, Erase(File), p, q);
    UpToThree(s, Erase(Native), p, q);
  }

  const EMPTY := Stores(None, None)

  /** The first boot of an install that ends gives what it minted, and that stays the secret forever. */
  lemma FirstSecretIsForever(first: Boot, attempts: seq<Attempt>)
    requires Steady(first) && BootEffects(EMPTY, first).outcome.Booted?
    requires SteadyRun(ApplyAll(EMPTY, BootEffects(EMPTY, first).writes), attempts)
    ensures BootEffects(EMPTY, first).outcome == Booted(first.minted, Generated)
    ensures AlwaysGives(ApplyAll(EMPTY, BootEffects(EMPTY, first).writes), attempts, first.minted)
  {
    var p := Put(File, "");
    UpToThree(EMPTY, p, Put(File, first.minted), p);
    UpToThree(EMPTY, Put(Native, first.minted), p, p);
    SecretIsForever(ApplyAll(EMPTY, BootEffects(EMPTY, first).writes), attempts, first.minted);
  }

  /** One boot in fallback after the secret has moved to the native store gives out a second secret,
      and the next native boot then replaces the first one with it. */
  lemma FallbackReplacesTheSecret(v: string, w: string)
    requires v != w
    ensures var s := Stores(None, Some(v));
            var fallback := Boot(File, Fallback, true, Broken, false, false, w);
            var native := Boot(Native, Probe, true, Usable, false, false, v);
            var after := ApplyAll(s, BootEffects(s, fallback).writes);
            && BootEffects(s, fallback).outcome == Booted(w, Generated)
            && after == Stores(Some(w), Some(v))
            && BootEffects(after, native).outcome == Booted(w, Migrated)
            && ApplyAll(after, BootEffects(after, native).writes) == Stores(None, Some(w))
  {
    var p := Put(File, "");
    UpToThree(Stores(None, Some(v)), p, Put(File, w), p);
    UpToThree(Stores(Some(w), Some(v)), Put(Native, w), Erase(File), p);
  }
}
