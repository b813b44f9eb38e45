/** Deploying with retries, and the database of deployed addresses. */
module Deploy {
  import opened Results

  /** 0 is the zero address. */
  type Address = nat

  /** What happens when a contract is deployed: the deployment fails, or it succeeds at an
      address and initialisation or verification may fail afterwards. */
  datatype Fate = Fate(deployed: Result<Address>, initialized: Result<()>, verified: Result<()>)

  /** The settings of a deployment. */
  datatype Settings = Settings(incremental: bool, proxy: bool, verify: bool, maxRetries: int)

  predicate Usable(a: Option<Address>)
  {
    a.Some? && a.value != 0
  }

  function Entry(addresses: map<string, Address>, id: string): Option<Address>
  {
    if id in addresses then Some(addresses[id]) else None
  }

  class Db {
    var addresses: map<string, Address>

    function Get(id: string): Option<Address>
      reads this
    {
      Entry(addresses, id)
    }
  }

  /** One attempt, on the database entry of the contract. */
  function Once(s: Settings, entry: Option<Address>, fate: Fate): (Option<Address>, Result<Address>)
  {
    if s.incremental && Usable(entry) then (entry, Success(entry.value))
    else if fate.deployed.Failure? then (entry, Failure(fate.deployed.message))
    else
      var a := fate.deployed.value;
      if s.proxy && fate.initialized.Failure? then (Some(a), Failure(fate.initialized.message))
      else if s.verify && fate.verified.Failure? then (Some(a), Failure(fate.verified.message))
      else (Some(a), Success(a))
  }

  method Attempt(s: Settings, db: Db, id: string, fate: Fate) returns (r: Result<Address>)
    modifies db
    ensures (db.Get(id), r) == Once(s, old(db.Get(id)), fate)
    ensures forall other :: other != id ==> db.Get(other) == old(db.Get(other))
  {
    var addressInDb := db.Get(id);
    if s.incremental && Usable(addressInDb) {
      return Success(addressInDb.value);
    }
    var address :- fate.deployed;
    db.addresses := db.addresses[id := address];
    if s.proxy && fate.initialized.Failure? {
      return Failure(fate.initialized.message);
    }
    if s.verify && fate.verified.Failure? {
      return Failure(fate.verified.message);
    }
    r := Success(address);
  }

  /** The entry after the first n attempts. */
  function EntryAfter(s: Settings, entry: Option<Address>, fates: nat -> Fate, n: nat): Option<Address>
  {
    if n == 0 then entry else Once(s, EntryAfter(s, entry, fates, n - 1), fates(n - 1)).0
  }

  /** The answer of the n-th attempt, counted from 0. */
  function Answer(s: Settings, entry: Option<Address>, fates: nat -> Fate, n: nat): Result<Address>
  {
    Once(s, EntryAfter(s, entry, fates, n), fates(n)).1
  }

  /** The number of attempts allowed: one at least. */
  function Allowed(s: Settings): nat
  {
    if s.maxRetries < 1 then 1 else s.maxRetries
  }

  /** n attempts were made: all but the last failed, and the last one succeeded unless
      all attempts are used up; the answer is that of the last. */
  ghost predicate IsOutcome(s: Settings, entry: Option<Address>, fates: nat -> Fate, n: nat, r: Result<Address>)
  {
    && 1 <= n <= Allowed(s)
    && (forall k :: 0 <= k < n - 1 ==> Answer(s, entry, fates, k).Failure?)
    && r == Answer(s, entry, fates, n - 1)
    && (r.Success? || n == Allowed(s))
  }

  /** Retrying after each failure until the allowed attempts are used up; `retries` counts
      the failures so far. */
  method Retry(s: Settings, db: Db, id: string, fates: nat -> Fate, retries: nat, ghost entry: Option<Address>)
    returns (r: Result<Address>, n: nat)
    requires retries < Allowed(s) && db.Get(id) == EntryAfter(s, entry, fates, retries)
    requires forall k :: 0 <= k < retries ==> Answer(s, entry, fates, k).Failure?
    modifies db
    ensures IsOutcome(s, entry, fates, n, r) && db.Get(id) == EntryAfter(s, entry, fates, n)
    ensures forall other :: other != id ==> db.Get(other) == old(db.Get(other))
    decreases Allowed(s) - retries
  {
    r := Attempt(s, db, id, fates(retries));
    n := retries + 1;
    if r.Failure? && retries + 1 < s.maxRetries {
      r, n := Retry(s, db, id, fates, retries + 1, entry);
    }
  }

  method WithSaveAndVerify(s: Settings, db: Db, id: string, fates: nat -> Fate) returns (r: Result<Address>, n: nat)
    modifies db
    ensures IsOutcome(s, old(db.Get(id)), fates, n, r)
    ensures db.Get(id) == EntryAfter(s, old(db.Get(id)), fates, n)
    ensures forall other :: other != id ==> db.Get(other) == old(db.Get(other))
  {
    r, n := Retry(s, db, id, fates, 0, db.Get(id));
  }

  /** The outcome is determined: the number of attempts and the answer follow from the
      fates. */
  lemma OutcomeUnique(s: Settings, entry: Option<Address>, fates: nat -> Fate, m: nat, n: nat, q: Result<Address>, r: Result<Address>)
    requires IsOutcome(s, entry, fates, m, q) && IsOutcome(s, entry, fates, n, r)
    ensures m == n && q == r
  {
  }

  /** A successful deployment returns the address the database holds afterwards. */
  lemma SuccessIsRecorded(s: Settings, entry: Option<Address>, fates: nat -> Fate, n: nat, r: Result<Address>)
    requires IsOutcome(s, entry, fates, n, r) && r.Success?
    ensures EntryAfter(s, entry, fates, n) == Some(r.value)
  {
  }

  // ---------- deploying anew, and what a failure leaves ----------

  /** An attempt returns an address in the database only in incremental mode, and never the
      zero address; in all other cases it goes as if the mode were off. */
  lemma StoredOrAnew(s: Settings, entry: Option<Address>, fate: Fate, a: Address)
    ensures s.incremental && entry == Some(a) && a != 0 ==> Once(s, entry, fate) == (entry, Success(a))
    ensures !s.incremental || entry == None || entry == Some(0) ==>
      Once(s, entry, fate) == Once(s.(incremental := false), entry, fate)
  {
  }

  /** Nothing went wrong that the settings ask for. */
  predicate Good(s: Settings, fate: Fate)
  {
    fate.deployed.Success? && (s.proxy ==> fate.initialized.Success?) && (s.verify ==> fate.verified.Success?)
  }

  /** Without incremental mode every attempt deploys anew, whatever the entry: the answer
      is the first good deployment's address, and the entry the last address deployed,
      good or not. */
  lemma DeploysAnew(s: Settings, entry: Option<Address>, fates: nat -> Fate, n: nat, r: Result<Address>)
    requires !s.incremental && IsOutcome(s, entry, fates, n, r)
    ensures forall k :: 0 <= k < n - 1 ==> !Good(s, fates(k))
    ensures r.Success? <==> Good(s, fates(n - 1))
    ensures r.Success? ==> r == fates(n - 1).deployed
    ensures forall k :: 0 <= k < n && fates(k).deployed.Success? && (forall j :: k < j < n ==> fates(j).deployed.Failure?) ==>
      EntryAfter(s, entry, fates, n) == Some(fates(k).deployed.value)
  {
    forall k | 0 <= k < n - 1 ensures !Good(s, fates(k)) {
      assert Answer(s, entry, fates, k).Failure?;
    }
    forall k: nat | k < n && fates(k).deployed.Success? && (forall j :: k < j < n ==> fates(j).deployed.Failure?)
      ensures EntryAfter(s, entry, fates, n) == Some(fates(k).deployed.value)
    {
      LastDeployedStored(s, entry, fates, k, n);
    }
  }

  lemma {:induction false} LastDeployedStored(s: Settings, entry: Option<Address>, fates: nat -> Fate, k: nat, n: nat)
    requires !s.incremental && k < n && fates(k).deployed.Success?
    requires forall j :: k < j < n ==> fates(j).deployed.Failure?
    ensures EntryAfter(s, entry, fates, n) == Some(fates(k).deployed.value)
    decreases n
  {
    if k < n - 1 { LastDeployedStored(s, entry, fates, k, n - 1); }
  }

  /** If nothing ever goes well, as many attempts are made as the limit says, one at least. */
  lemma NeverGood(s: Settings, entry: Option<Address>, fates: nat -> Fate, n: nat, r: Result<Address>)
    requires !s.incremental && IsOutcome(s, entry, fates, n, r) && forall k :: !Good(s, fates(k))
    ensures r.Failure? && n == if s.maxRetries < 1 then 1 else s.maxRetries
  {
    DeploysAnew(s, entry, fates, n, r);
  }

  /** In incremental mode an address is stored before initialisation and verification.  If
      these fail, the retry finds it and returns it as a success: neither is made up for. */
  lemma FailureIsForgotten(s: Settings, entry: Option<Address>, fates: nat -> Fate, n: nat, r: Result<Address>)
    requires s.incremental && !Usable(entry) && Allowed(s) >= 2 && IsOutcome(s, entry, fates, n, r)
    requires fates(0).deployed.Success? && fates(0).deployed.value != 0 && !Good(s, fates(0))
    ensures n == 2 && r == fates(0).deployed && EntryAfter(s, entry, fates, n) == Some(r.value)
  {
    assert EntryAfter(s, entry, fates, 0) == entry;
    assert Answer(s, entry, fates, 0).Failure?;
    assert EntryAfter(s, entry, fates, 1) == Some(fates(0).deployed.value);
    assert Answer(s, entry, fates, 1) == fates(0).deployed;
    OutcomeUnique(s, entry, fates, 2, n, fates(0).deployed, r);
    assert EntryAfter(s, entry, fates, 2) == EntryAfter(s, entry, fates, 1);
  }

  /** In incremental mode a usable entry is never overwritten, by any number of attempts. */
  lemma {:induction false} UsableStays(s: Settings, entry: Option<Address>, fates: nat -> Fate, m: nat, n: nat)
    requires s.incremental && m <= n && Usable(EntryAfter(s, entry, fates, m))
    ensures EntryAfter(s, entry, fates, n) == EntryAfter(s, entry, fates, m)
  {
    if m < n {
      UsableStays(s, entry, fates, m, n - 1);
    }
  }

  // ---------- the database over many deployments ----------

  /** One call of withSaveAndVerify: for which contract, and what happened. */
  datatype Run = Run(id: string, settings: Settings, fates: nat -> Fate, attempts: nat, answer: Result<Address>)

  /** The database after a run. */
  function DbAfter(addresses: map<string, Address>, run: Run): map<string, Address>
  {
    match EntryAfter(run.settings, Entry(addresses, run.id), run.fates, run.attempts)
    case None => addresses
    case Some(a) => addresses[run.id := a]
  }

  /** The run went as withSaveAndVerify goes on this database. */
  ghost predicate Happened(addresses: map<string, Address>, run: Run)
  {
    IsOutcome(run.settings, Entry(addresses, run.id), run.fates, run.attempts, run.answer)
  }

  /** The database after the first n of several runs, for any contracts, in any order. */
  function DbAfterAll(addresses: map<string, Address>, runs: seq<Run>, n: nat): map<string, Address>
    requires n <= |runs|
  {
    if n == 0 then addresses else DbAfter(DbAfterAll(addresses, runs, n - 1), runs[n - 1])
  }

  /** A history: every run went as withSaveAndVerify goes on the database it found. */
  ghost predicate History(addresses: map<string, Address>, runs: seq<Run>)
  {
    forall i :: 0 <= i < |runs| ==> Happened(DbAfterAll(addresses, runs, i), runs[i])
  }

  ghost predicate Incremental(runs: seq<Run>)
  {
    forall i :: 0 <= i < |runs| ==> runs[i].settings.incremental
  }

  /** What withSaveAndVerify does to the database as a whole is DbAfter. */
  method DeployContract(s: Settings, db: Db, id: string, fates: nat -> Fate) returns (ghost run: Run, r: Result<Address>)
    modifies db
    ensures run.id == id && run.settings == s && run.fates == fates && run.answer == r
    ensures Happened(old(db.addresses), run) && db.addresses == DbAfter(old(db.addresses), run)
  {
    ghost var before := db.addresses;
    ghost var n;
    r, n := WithSaveAndVerify(s, db, id, fates);
    run := Run(id, s, fates, n, r);
    ghost var after := DbAfter(before, run);
    forall other ensures Entry(db.addresses, other) == Entry(after, other) {
      assert Entry(before, id) == Entry(before, run.id);
      if other == id {
        if id in before { EntryStays(s, Entry(before, id), fates, n); }
      } else {
        assert db.Get(other) == Entry(before, other);
      }
    }
    SameEntries(db.addresses, after);
  }

  /** An entry is never taken out of the database. */
  lemma {:induction false} EntryStays(s: Settings, entry: Option<Address>, fates: nat -> Fate, n: nat)
    requires entry.Some?
    ensures EntryAfter(s, entry, fates, n).Some?
  {
    if n > 0 { EntryStays(s, entry, fates, n - 1); }
  }

  lemma SameEntries(a: map<string, Address>, b: map<string, Address>)
    requires forall id :: Entry(a, id) == Entry(b, id)
    ensures a == b
  {
    forall id ensures (id in a <==> id in b) && (id in a ==> a[id] == b[id]) {
      assert Entry(a, id) == Entry(b, id);
    }
  }

  /** The database is write-once: whatever incremental runs there are, for whatever
      contracts, interleaved in any way and failing in any way, a usable address of any
      contract stays. */
  lemma {:induction false} WriteOnce(addresses: map<string, Address>, runs: seq<Run>, m: nat, n: nat, id: string)
    requires m <= n <= |runs| && Incremental(runs)
    requires Usable(Entry(DbAfterAll(addresses, runs, m), id))
    ensures Entry(DbAfterAll(addresses, runs, n), id) == Entry(DbAfterAll(addresses, runs, m), id)
  {
    if m < n {
      WriteOnce(addresses, runs, m, n - 1, id);
      var run := runs[n - 1];
      if run.id == id {
        UsableStays(run.settings, Entry(DbAfterAll(addresses, runs, m), id), run.fates, 0, run.attempts);
      }
    }
  }

  /** So all successful runs for a contract return one address: the first success fixes
      it, and every later run returns it at its first attempt. */
  lemma OneAddress(addresses: map<string, Address>, runs: seq<Run>, i: nat, j: nat)
    requires History(addresses, runs) && Incremental(runs) && i < j < |runs| && runs[i].id == runs[j].id
    requires runs[i].answer.Success? && runs[i].answer.value != 0
    ensures runs[j].answer == runs[i].answer && runs[j].attempts == 1
  {
    var id, address, k := runs[i].id, runs[i].answer.value, i + 1;
    SuccessStored(addresses, runs, i, k);
    WriteOnce(addresses, runs, k, j, id);
    StoredReturned(addresses, runs, j, address);
  }

  /** A run that finds a usable address in the database returns it at once. */
  lemma StoredReturned(addresses: map<string, Address>, runs: seq<Run>, j: nat, address: Address)
    requires History(addresses, runs) && Incremental(runs) && j < |runs| && address != 0
    requires Entry(DbAfterAll(addresses, runs, j), runs[j].id) == Some(address)
    ensures runs[j].answer == Success(address) && runs[j].attempts == 1
  {
    assert Happened(DbAfterAll(addresses, runs, j), runs[j]);
    UsableAnswers(runs[j].settings, Some(address), runs[j].fates, runs[j].attempts, runs[j].answer);
  }

  /** A successful run leaves its address in the database. */
  lemma SuccessStored(addresses: map<string, Address>, runs: seq<Run>, i: nat, k: nat)
    requires History(addresses, runs) && i < |runs| && runs[i].answer.Success? && k == i + 1
    ensures Entry(DbAfterAll(addresses, runs, k), runs[i].id) == Some(runs[i].answer.value)
  {
    var run, before := runs[i], DbAfterAll(addresses, runs, i);
    assert Happened(before, run);
    SuccessIsRecorded(run.settings, Entry(before, run.id), run.fates, run.attempts, run.answer);
  }

  lemma UsableAnswers(s: Settings, entry: Option<Address>, fates: nat -> Fate, n: nat, r: Result<Address>)
    requires s.incremental && Usable(entry) && IsOutcome(s, entry, fates, n, r)
    ensures r == Success(entry.value) && n == 1
  {
    assert Answer(s, entry, fates, 0) == Success(entry.value);
    OutcomeUnique(s, entry, fates, 1, n, Success(entry.value), r);
  }
}
