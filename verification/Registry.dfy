/** Building the storage registry and the application's scheme indexes from definitions: what is
  * refused, what is reported, and that the indexes agree with searching the definitions.
  */
module Registry {

  import opened Claims
  import opened Wrappers

  datatype Direction = Input | Output

  datatype Backend = Backend(
    name: string,
    schemes: seq<string>,
    input: bool,
    output: bool,
    claimsBare: bool,
    sharedRetries: bool,
    cliKeys: seq<string>)
  {
    predicate Supports(direction: Direction) {
      match direction case Input => input case Output => output
    }
  }

  datatype RegistryError =
    | DuplicateBackendName(name: string, occurrences: nat)
    | DuplicateScheme(scheme: string, backends: seq<string>)
    | DuplicateCliArgument(argument: string, contributors: seq<string>)
    | MultipleBareLocationBackends(bareBackends: seq<string>)

  datatype RoutingIndex = RoutingIndex(byScheme: map<string, nat>, bare: Option<nat>)

  // ---------- the claims a set of backends makes ----------

  function Claiming(keys: seq<string>, claimant: string): seq<Claim<string, string>> {
    seq(|keys|, i requires 0 <= i < |keys| => Claim(keys[i], claimant))
  }

  function NameClaims(backends: seq<Backend>): seq<Claim<string, string>> {
    seq(|backends|, i requires 0 <= i < |backends| => Claim(backends[i].name, backends[i].name))
  }

  function SchemeClaims(backends: seq<Backend>): seq<Claim<string, string>> {
    if backends == [] then []
    else SchemeClaims(backends[..|backends| - 1])
         + Claiming(backends[|backends| - 1].schemes, backends[|backends| - 1].name)
  }

  function BackendCliClaims(backends: seq<Backend>): seq<Claim<string, string>> {
    if backends == [] then []
    else BackendCliClaims(backends[..|backends| - 1])
         + Claiming(backends[|backends| - 1].cliKeys, backends[|backends| - 1].name)
  }

  predicate UsesSharedRetries(backends: seq<Backend>) {
    exists i :: 0 <= i < |backends| && backends[i].sharedRetries
  }

  /** Shared upload arguments come first, shared retries next when any backend wants them. */
  function CliClaims(backends: seq<Backend>, uploads: seq<string>, retries: seq<string>): seq<Claim<string, string>> {
    Claiming(uploads, "shared object uploads")
    + (if UsesSharedRetries(backends) then Claiming(retries, "shared storage retries") else [])
    + BackendCliClaims(backends)
  }

  function BareClaimants(backends: seq<Backend>): seq<string> {
    if backends == [] then []
    else BareClaimants(backends[..|backends| - 1])
         + if backends[|backends| - 1].claimsBare then [backends[|backends| - 1].name] else []
  }

  // ---------- what building refuses ----------

  /** Names are checked first, then schemes, then arguments, then bare locations. */
  function Refusal(backends: seq<Backend>, uploads: seq<string>, retries: seq<string>): Option<RegistryError> {
    var names, schemes := FirstConflict(NameClaims(backends)), FirstConflict(SchemeClaims(backends));
    var arguments := FirstConflict(CliClaims(backends, uploads, retries));
    if names.Some? then Some(DuplicateBackendName(names.value.key, |names.value.claimants|))
    else if schemes.Some? then Some(DuplicateScheme(schemes.value.key, schemes.value.claimants))
    else if arguments.Some? then Some(DuplicateCliArgument(arguments.value.key, arguments.value.claimants))
    else if |BareClaimants(backends)| > 1 then Some(MultipleBareLocationBackends(BareClaimants(backends)))
    else None
  }

  /** A registry is refused exactly when some name, scheme, argument or the bare route is
    * claimed twice. */
  lemma RefusedExactly(backends: seq<Backend>, uploads: seq<string>, retries: seq<string>)
    ensures Refusal(backends, uploads, retries).None? <==>
      && AllDifferent(NameClaims(backends))
      && AllDifferent(SchemeClaims(backends))
      && AllDifferent(CliClaims(backends, uploads, retries))
      && |BareClaimants(backends)| <= 1
  {
    FirstConflictIsEarliest(NameClaims(backends), 0);
    FirstConflictIsEarliest(SchemeClaims(backends), 0);
    FirstConflictIsEarliest(CliClaims(backends, uploads, retries), 0);
  }

  // ---------- searching the definitions ----------

  function SchemesOf(backend: Backend): seq<string> {
    backend.schemes
  }

  /** The first backend that lists a scheme. */
  function Owner(backends: seq<Backend>, scheme: string): Option<nat> {
    FirstOwner(backends, SchemesOf, scheme)
  }

  function BareOwner(backends: seq<Backend>): (owner: Option<nat>)
    ensures owner.Some? ==> owner.value < |backends| && backends[owner.value].claimsBare
    ensures owner.None? ==> forall i :: 0 <= i < |backends| ==> !backends[i].claimsBare
  {
    if backends == [] then None
    else
      var front := BareOwner(backends[..|backends| - 1]);
      if front.Some? then front
      else if backends[|backends| - 1].claimsBare then Some(|backends| - 1)
      else None
  }

  lemma ClaimingKeys(keys: seq<string>, claimant: string, key: string)
    ensures Claimed(Claiming(keys, claimant), key) <==> key in keys
  {
    if key in keys {
      var i :| 0 <= i < |keys| && keys[i] == key;
      assert Claiming(keys, claimant)[i].key == key;
    }
  }

  lemma {:induction false} SchemeClaimsHaveOwners(backends: seq<Backend>, scheme: string)
    ensures Claimed(SchemeClaims(backends), scheme) <==> Owner(backends, scheme).Some?
  {
    if backends != [] {
      var front, last := backends[..|backends| - 1], backends[|backends| - 1];
      SchemeClaimsHaveOwners(front, scheme);
      ClaimingKeys(last.schemes, last.name, scheme);
      ClaimedConcat(SchemeClaims(front), Claiming(last.schemes, last.name), scheme);
    }
  }

  /** The owner once the first `j` schemes of the next backend count as well. */
  function OwnerSoFar(backends: seq<Backend>, n: nat, j: nat, scheme: string): Option<nat>
    requires n < |backends| && j <= |backends[n].schemes|
  {
    var front := Owner(backends[..n], scheme);
    if front.Some? then front else if scheme in backends[n].schemes[..j] then Some(n) else None
  }

  lemma OneMoreScheme(backends: seq<Backend>, n: nat, j: nat, scheme: string)
    requires n < |backends| && j < |backends[n].schemes| && Owner(backends[..n], backends[n].schemes[j]).None?
    ensures OwnerSoFar(backends, n, j + 1, scheme)
         == if scheme == backends[n].schemes[j] then Some(n) else OwnerSoFar(backends, n, j, scheme)
  {
    var schemes := backends[n].schemes;
    assert schemes[..j + 1] == schemes[..j] + [schemes[j]];
  }

  lemma WholeBackend(backends: seq<Backend>, n: nat, scheme: string)
    requires n < |backends|
    ensures OwnerSoFar(backends, n, |backends[n].schemes|, scheme) == Owner(backends[..n + 1], scheme)
  {
    assert backends[..n + 1][..n] == backends[..n];
    assert backends[n].schemes[..|backends[n].schemes|] == backends[n].schemes;
  }

  predicate Indexes(index: map<string, nat>, scheme: string, owner: Option<nat>) {
    if scheme in index then owner == Some(index[scheme]) else owner == None
  }

  /** No scheme of a backend is owned by an earlier one, or listed twice. */
  lemma SchemeIsNew(backends: seq<Backend>, n: nat, j: nat)
    requires n < |backends| && j < |backends[n].schemes| && AllDifferent(SchemeClaims(backends[..n + 1]))
    ensures Owner(backends[..n], backends[n].schemes[j]).None?
  {
    var before, own := SchemeClaims(backends[..n]), Claiming(backends[n].schemes, backends[n].name);
    assert backends[..n + 1][..n] == backends[..n];
    AllDifferentConcat(before, own);
    SchemeClaimsHaveOwners(backends[..n], backends[n].schemes[j]);
    ClaimingKeys(backends[n].schemes, backends[n].name, backends[n].schemes[j]);
  }

  lemma {:induction false} PrefixIsDifferent(backends: seq<Backend>, n: nat)
    requires n <= |backends| && AllDifferent(SchemeClaims(backends))
    ensures AllDifferent(SchemeClaims(backends[..n]))
    decreases |backends| - n
  {
    if n == |backends| {
      assert backends[..n] == backends;
    } else {
      PrefixIsDifferent(backends, n + 1);
      assert backends[..n + 1][..n] == backends[..n];
      AllDifferentConcat(SchemeClaims(backends[..n]), Claiming(backends[n].schemes, backends[n].name));
    }
  }

  /** Records every scheme of every backend, the later entry replacing the earlier. */
  method IndexSchemes(backends: seq<Backend>) returns (index: map<string, nat>)
    requires AllDifferent(SchemeClaims(backends))
    ensures forall scheme :: Indexes(index, scheme, Owner(backends, scheme))
  {
    index := map[];
    assert forall scheme :: Owner(backends[..0], scheme) == None;
    for n := 0 to |backends|
      invariant forall scheme :: Indexes(index, scheme, Owner(backends[..n], scheme))
    {
      PrefixIsDifferent(backends, n + 1);
      var schemes := backends[n].schemes;
      assert forall scheme :: OwnerSoFar(backends, n, 0, scheme) == Owner(backends[..n], scheme);
      for j := 0 to |schemes|
        invariant forall scheme :: Indexes(index, scheme, OwnerSoFar(backends, n, j, scheme))
      {
        SchemeIsNew(backends, n, j);
        ghost var before, next := index, j + 1;
        index := index[schemes[j] := n];
        forall scheme ensures Indexes(index, scheme, OwnerSoFar(backends, n, next, scheme)) {
          assert Indexes(before, scheme, OwnerSoFar(backends, n, j, scheme));
          OneMoreScheme(backends, n, j, scheme);
        }
      }
      ghost var done := backends[..n + 1];
      forall scheme ensures Indexes(index, scheme, Owner(done, scheme)) {
        assert Indexes(index, scheme, OwnerSoFar(backends, n, |schemes|, scheme));
        WholeBackend(backends, n, scheme);
      }
    }
    assert backends[..|backends|] == backends;
  }

  method IndexBareLocations(backends: seq<Backend>) returns (bare: Option<nat>)
    requires |BareClaimants(backends)| <= 1
    ensures bare == BareOwner(backends)
  {
    bare := None;
    for n := 0 to |backends|
      invariant bare == BareOwner(backends[..n])
    {
      assert backends[..n + 1][..n] == backends[..n];
      if backends[n].claimsBare {
        BareIsNew(backends, n);
        bare := Some(n);
      }
    }
    assert backends[..|backends|] == backends;
  }

  lemma {:induction false} BareClaimantsGrow(backends: seq<Backend>, n: nat)
    requires n <= |backends|
    ensures |BareClaimants(backends[..n])| <= |BareClaimants(backends)|
    decreases |backends| - n
  {
    if n < |backends| {
      BareClaimantsGrow(backends, n + 1);
      assert backends[..n + 1][..n] == backends[..n];
    } else {
      assert backends[..n] == backends;
    }
  }

  lemma {:induction false} BareOwnerClaims(backends: seq<Backend>)
    ensures BareOwner(backends).None? <==> BareClaimants(backends) == []
  {
    if backends != [] {
      BareOwnerClaims(backends[..|backends| - 1]);
    }
  }

  lemma BareIsNew(backends: seq<Backend>, n: nat)
    requires n < |backends| && backends[n].claimsBare && |BareClaimants(backends)| <= 1
    ensures BareOwner(backends[..n]).None?
  {
    BareClaimantsGrow(backends, n + 1);
    assert backends[..n + 1][..n] == backends[..n];
    BareOwnerClaims(backends[..n]);
  }

  /** The registry is built exactly when nothing is claimed twice; otherwise the report is the
    * earliest conflict of the first kind checked.  Lookups answer what a search would. */
  method FromBackends(backends: seq<Backend>, uploads: seq<string>, retries: seq<string>)
    returns (result: Result<RoutingIndex, RegistryError>)
    ensures result.Failure? <==> Refusal(backends, uploads, retries).Some?
    ensures result.Failure? ==> Some(result.error) == Refusal(backends, uploads, retries)
    ensures result.Success? ==>
      && (forall scheme :: Indexes(result.value.byScheme, scheme, Owner(backends, scheme)))
      && result.value.bare == BareOwner(backends)
  {
    RefusedExactly(backends, uploads, retries);
    var names := FindConflict(NameClaims(backends));
    if names.Some? {
      return Failure(DuplicateBackendName(names.value.key, |names.value.claimants|));
    }
    var schemes := FindConflict(SchemeClaims(backends));
    if schemes.Some? {
      return Failure(DuplicateScheme(schemes.value.key, schemes.value.claimants));
    }
    var arguments := FindConflict(CliClaims(backends, uploads, retries));
    if arguments.Some? {
      return Failure(DuplicateCliArgument(arguments.value.key, arguments.value.claimants));
    }
    var bareClaimants := BareClaimants(backends);
    if |bareClaimants| > 1 {
      return Failure(MultipleBareLocationBackends(bareClaimants));
    }
    var byScheme := IndexSchemes(backends);
    var bare := IndexBareLocations(backends);
    result := Success(RoutingIndex(byScheme, bare));
  }

}
