/** When a registry or an application is refused, and whom the report names, by the definitions alone. */
module Reports {

  import opened Application
  import opened Claims
  import opened FirstOccurrences
  import opened Registry
  import opened Text
  import opened Wrappers

  // ---------- keys and those who bring them ----------

  /** Someone who brings keys. */
  datatype Contributor<C, K> = Contributor(who: C, keys: seq<K>)

  /** No key is brought twice, by two contributors or by one. */
  ghost predicate NoKeyTwice<C, K>(contributors: seq<Contributor<C, K>>) {
    forall a, i, b, j ::
      (&& 0 <= a < |contributors| && 0 <= i < |contributors[a].keys|
       && 0 <= b < |contributors| && 0 <= j < |contributors[b].keys|
       && contributors[a].keys[i] == contributors[b].keys[j])
      ==> a == b && i == j
  }

  function Copies<C>(who: C, n: nat): seq<C> { seq(n, _ => who) }

  function Occurrences<K(==)>(keys: seq<K>, key: K): nat {
    if keys == [] then 0 else (if keys[0] == key then 1 else 0) + Occurrences(keys[1..], key)
  }

  /** Those who bring a key, in order, each as often as they bring it. */
  function Sharing<C, K(==)>(contributors: seq<Contributor<C, K>>, key: K): seq<C> {
    if contributors == [] then []
    else Copies(contributors[0].who, Occurrences(contributors[0].keys, key)) + Sharing(contributors[1..], key)
  }

  function OwnKeys<C, K>(contributor: Contributor<C, K>): seq<Claim<K, C>> {
    seq(|contributor.keys|, i requires 0 <= i < |contributor.keys| => Claim(contributor.keys[i], contributor.who))
  }

  function Gathered<C, K>(contributors: seq<Contributor<C, K>>): seq<Claim<K, C>> {
    if contributors == [] then [] else OwnKeys(contributors[0]) + Gathered(contributors[1..])
  }

  lemma {:induction false} ClaimantsConcat<C, K>(a: seq<Claim<K, C>>, b: seq<Claim<K, C>>, key: K)
    ensures Claimants(a + b, key) == Claimants(a, key) + Claimants(b, key)
    decreases |b|
  {
    if b == [] {
      ConcatEmpty(a);
      ConcatEmpty(Claimants(a, key));
    } else {
      var n := |b| - 1;
      assert (a + b)[..|a + b| - 1] == a + b[..n] && (a + b)[|a + b| - 1] == b[n];
      ClaimantsConcat(a, b[..n], key);
      ConcatAssociates(Claimants(a, key), Claimants(b[..n], key), [b[n].claimant]);
    }
  }

  lemma {:induction false} OwnClaimants<C, K>(who: C, keys: seq<K>, key: K)
    ensures Claimants(OwnKeys(Contributor(who, keys)), key) == Copies(who, Occurrences(keys, key))
    decreases |keys|
  {
    if keys != [] {
      var first, others := [Claim(keys[0], who)], OwnKeys(Contributor(who, keys[1..]));
      assert OwnKeys(Contributor(who, keys)) == first + others;
      ClaimantsConcat(first, others, key);
      OwnClaimants(who, keys[1..], key);
      assert first[..0] == [];
      assert Claimants(first, key) == if keys[0] == key then [who] else [];
    }
  }

  /** The claimants of a key are those who bring it. */
  lemma {:induction false} GatheredClaimants<C, K>(contributors: seq<Contributor<C, K>>, key: K)
    ensures Claimants(Gathered(contributors), key) == Sharing(contributors, key)
  {
    if contributors != [] {
      var first := contributors[0];
      ClaimantsConcat(OwnKeys(first), Gathered(contributors[1..]), key);
      OwnClaimants(first.who, first.keys, key);
      GatheredClaimants(contributors[1..], key);
    }
  }

  lemma {:induction false} GatheredAppend<C, K>(front: seq<Contributor<C, K>>, last: Contributor<C, K>)
    ensures Gathered(front + [last]) == Gathered(front) + OwnKeys(last)
    decreases |front|
  {
    if front == [] {
      assert [] + [last] == [last] && [last][1..] == [];
      ConcatEmpty(OwnKeys(last));
    } else {
      assert (front + [last])[1..] == front[1..] + [last];
      GatheredAppend(front[1..], last);
      ConcatAssociates(OwnKeys(front[0]), Gathered(front[1..]), OwnKeys(last));
    }
  }

  ghost predicate Brought<C, K>(contributors: seq<Contributor<C, K>>, key: K) {
    exists a :: 0 <= a < |contributors| && key in contributors[a].keys
  }

  lemma BroughtStep<C, K>(first: Contributor<C, K>, others: seq<Contributor<C, K>>, key: K)
    ensures Brought([first] + others, key) <==> key in first.keys || Brought(others, key)
  {
    var all := [first] + others;
    assert all[0] == first;
    assert forall a :: 0 <= a < |others| ==> all[a + 1] == others[a];
    if a :| 0 <= a < |all| && key in all[a].keys {
      assert a > 0 ==> others[a - 1] == all[a];
    }
    if a :| 0 <= a < |others| && key in others[a].keys {
      assert key in all[a + 1].keys;
    }
  }

  lemma OwnKeysClaimed<C, K>(contributor: Contributor<C, K>, key: K)
    ensures Claimed(OwnKeys(contributor), key) <==> key in contributor.keys
  {
    if key in contributor.keys {
      var i :| 0 <= i < |contributor.keys| && contributor.keys[i] == key;
      assert OwnKeys(contributor)[i].key == key;
    }
  }

  lemma {:induction false} GatheredKeys<C, K>(contributors: seq<Contributor<C, K>>, key: K)
    ensures Claimed(Gathered(contributors), key) <==> Brought(contributors, key)
  {
    if contributors != [] {
      GatheredKeys(contributors[1..], key);
      ClaimedConcat(OwnKeys(contributors[0]), Gathered(contributors[1..]), key);
      OwnKeysClaimed(contributors[0], key);
      BroughtStep(contributors[0], contributors[1..], key);
      HeadAndTail(contributors);
    }
  }

  /** No key of one contributor is brought by any of the others. */
  ghost predicate Disjoint<C, K>(first: Contributor<C, K>, others: seq<Contributor<C, K>>) {
    forall i, b, j :: 0 <= i < |first.keys| && 0 <= b < |others| && 0 <= j < |others[b].keys| ==>
      first.keys[i] != others[b].keys[j]
  }

  lemma DisjointByKey<C, K(!new)>(first: Contributor<C, K>, others: seq<Contributor<C, K>>)
    ensures Disjoint(first, others) <==> forall key :: key in first.keys ==> !Brought(others, key)
  {
    if Disjoint(first, others) {
      forall key | key in first.keys ensures !Brought(others, key) {
        var i :| 0 <= i < |first.keys| && first.keys[i] == key;
        forall b | 0 <= b < |others| ensures key !in others[b].keys {
          assert forall j :: 0 <= j < |others[b].keys| ==> first.keys[i] != others[b].keys[j];
        }
      }
    }
    if forall key :: key in first.keys ==> !Brought(others, key) {
      forall i, b, j | 0 <= i < |first.keys| && 0 <= b < |others| && 0 <= j < |others[b].keys|
        ensures first.keys[i] != others[b].keys[j]
      {
        assert !Brought(others, first.keys[i]);
      }
    }
  }

  lemma OwnKeysDiffer<C, K>(contributor: Contributor<C, K>)
    ensures AllDifferent(OwnKeys(contributor)) <==>
              forall i, j :: 0 <= i < j < |contributor.keys| ==> contributor.keys[i] != contributor.keys[j]
  {
    assert forall i :: 0 <= i < |contributor.keys| ==> OwnKeys(contributor)[i].key == contributor.keys[i];
  }

  lemma OnceInFront<C, K>(first: Contributor<C, K>, others: seq<Contributor<C, K>>)
    requires AllDifferent(OwnKeys(first)) && NoKeyTwice(others) && Disjoint(first, others)
    ensures NoKeyTwice([first] + others)
  {
    var all := [first] + others;
    OwnKeysDiffer(first);
    assert all[0] == first && forall a :: 0 < a < |all| ==> all[a] == others[a - 1];
    forall a, i, b, j |
      0 <= a < |all| && 0 <= i < |all[a].keys| && 0 <= b < |all| && 0 <= j < |all[b].keys|
      && all[a].keys[i] == all[b].keys[j]
      ensures a == b && i == j
    {
      if a > 0 && b > 0 {
        assert others[a - 1].keys[i] == others[b - 1].keys[j];
      }
    }
  }

  lemma OnceBehind<C, K>(first: Contributor<C, K>, others: seq<Contributor<C, K>>)
    requires NoKeyTwice([first] + others)
    ensures AllDifferent(OwnKeys(first)) && NoKeyTwice(others) && Disjoint(first, others)
  {
    var all := [first] + others;
    OwnKeysDiffer(first);
    assert all[0] == first && forall a :: 0 <= a < |others| ==> all[a + 1] == others[a];
    forall i, j | 0 <= i < j < |first.keys| ensures first.keys[i] != first.keys[j] {
      assert all[0].keys[i] == first.keys[i] && all[0].keys[j] == first.keys[j];
    }
    forall i, b, j | 0 <= i < |first.keys| && 0 <= b < |others| && 0 <= j < |others[b].keys|
      ensures first.keys[i] != others[b].keys[j]
    {
      assert all[0].keys[i] == first.keys[i] && all[b + 1].keys[j] == others[b].keys[j];
    }
    forall a, i, b, j |
      0 <= a < |others| && 0 <= i < |others[a].keys| && 0 <= b < |others| && 0 <= j < |others[b].keys|
      && others[a].keys[i] == others[b].keys[j]
      ensures a == b && i == j
    {
      assert all[a + 1].keys[i] == all[b + 1].keys[j];
    }
  }

  /** Claims differ exactly when no key is brought twice. */
  lemma {:induction false} GatheredDiffer<C, K(!new)>(contributors: seq<Contributor<C, K>>)
    ensures AllDifferent(Gathered(contributors)) <==> NoKeyTwice(contributors)
  {
    if contributors != [] {
      var first, others := contributors[0], contributors[1..];
      GatheredDiffer(others);
      AllDifferentConcat(OwnKeys(first), Gathered(others));
      forall key
        ensures Claimed(OwnKeys(first), key) <==> key in first.keys
        ensures Claimed(Gathered(others), key) <==> Brought(others, key)
      {
        OwnKeysClaimed(first, key);
        GatheredKeys(others, key);
      }
      DisjointByKey(first, others);
      HeadAndTail(contributors);
      if NoKeyTwice(contributors) {
        OnceBehind(first, others);
      } else if AllDifferent(Gathered(contributors)) {
        OnceInFront(first, others);
      }
    }
  }

  // ---------- a registry ----------

  function Named(backends: seq<Backend>): seq<Contributor<string, string>> {
    seq(|backends|, i requires 0 <= i < |backends| => Contributor(backends[i].name, [backends[i].name]))
  }

  function Schemed(backends: seq<Backend>): seq<Contributor<string, string>> {
    seq(|backends|, i requires 0 <= i < |backends| => Contributor(backends[i].name, backends[i].schemes))
  }

  function BackendArguments(backends: seq<Backend>): seq<Contributor<string, string>> {
    seq(|backends|, i requires 0 <= i < |backends| => Contributor(backends[i].name, backends[i].cliKeys))
  }

  /** The shared upload arguments, the shared retry arguments when some backend uses them, and the backends' own. */
  function Arguments(backends: seq<Backend>, uploads: seq<string>, retries: seq<string>)
    : seq<Contributor<string, string>>
  {
    [Contributor("shared object uploads", uploads)]
    + (if exists i :: 0 <= i < |backends| && backends[i].sharedRetries
       then [Contributor("shared storage retries", retries)] else [])
    + BackendArguments(backends)
  }

  /** Those who claim bare locations, as bringing one key. */
  function Bare(backends: seq<Backend>): seq<Contributor<string, ()>> {
    seq(|backends|, i requires 0 <= i < |backends| =>
      Contributor(backends[i].name, if backends[i].claimsBare then [()] else []))
  }

  lemma ClaimingIsOwn(keys: seq<string>, who: string)
    ensures Claiming(keys, who) == OwnKeys(Contributor(who, keys))
  {
  }

  lemma {:induction false} SchemesAreGathered(backends: seq<Backend>)
    ensures SchemeClaims(backends) == Gathered(Schemed(backends))
    ensures BackendCliClaims(backends) == Gathered(BackendArguments(backends))
    decreases |backends|
  {
    if backends != [] {
      var n := |backends| - 1;
      SchemesAreGathered(backends[..n]);
      assert Schemed(backends) == Schemed(backends[..n]) + [Contributor(backends[n].name, backends[n].schemes)];
      GatheredAppend(Schemed(backends[..n]), Contributor(backends[n].name, backends[n].schemes));
      assert BackendArguments(backends)
          == BackendArguments(backends[..n]) + [Contributor(backends[n].name, backends[n].cliKeys)];
      GatheredAppend(BackendArguments(backends[..n]), Contributor(backends[n].name, backends[n].cliKeys));
    }
  }

  lemma {:induction false} NamesAreGathered(backends: seq<Backend>)
    ensures NameClaims(backends) == Gathered(Named(backends))
    decreases |backends|
  {
    if backends != [] {
      var n := |backends| - 1;
      var last := Contributor(backends[n].name, [backends[n].name]);
      NamesAreGathered(backends[..n]);
      assert Named(backends) == Named(backends[..n]) + [last];
      GatheredAppend(Named(backends[..n]), last);
      assert OwnKeys(last) == [Claim(backends[n].name, backends[n].name)];
      assert NameClaims(backends) == NameClaims(backends[..n]) + [Claim(backends[n].name, backends[n].name)];
    }
  }

  lemma {:induction false} GatheredConcat<C, K>(a: seq<Contributor<C, K>>, b: seq<Contributor<C, K>>)
    ensures Gathered(a + b) == Gathered(a) + Gathered(b)
    decreases |a|
  {
    if a == [] {
      ConcatEmpty(b);
      ConcatEmpty(Gathered(b));
    } else {
      assert (a + b)[1..] == a[1..] + b;
      GatheredConcat(a[1..], b);
      ConcatAssociates(OwnKeys(a[0]), Gathered(a[1..]), Gathered(b));
    }
  }

  lemma GatheredOne<C, K>(contributor: Contributor<C, K>)
    ensures Gathered([contributor]) == OwnKeys(contributor)
  {
    assert [contributor][1..] == [];
    ConcatEmpty(OwnKeys(contributor));
  }

  lemma ArgumentsAreGathered(backends: seq<Backend>, uploads: seq<string>, retries: seq<string>)
    ensures CliClaims(backends, uploads, retries) == Gathered(Arguments(backends, uploads, retries))
  {
    var shared := [Contributor("shared object uploads", uploads)];
    var retrying := if exists i :: 0 <= i < |backends| && backends[i].sharedRetries
                    then [Contributor("shared storage retries", retries)] else [];
    SchemesAreGathered(backends);
    GatheredOne(Contributor("shared object uploads", uploads));
    GatheredOne(Contributor("shared storage retries", retries));
    GatheredConcat(shared + retrying, BackendArguments(backends));
    GatheredConcat(shared, retrying);
    ClaimingIsOwn(uploads, "shared object uploads");
    ClaimingIsOwn(retries, "shared storage retries");
  }

  lemma {:induction false} BareIsSharing(backends: seq<Backend>)
    ensures BareClaimants(backends) == Sharing(Bare(backends), ())
    decreases |backends|
  {
    if backends != [] {
      var n := |backends| - 1;
      var last := Contributor(backends[n].name, if backends[n].claimsBare then [()] else []);
      BareIsSharing(backends[..n]);
      assert Bare(backends) == Bare(backends[..n]) + [last];
      SharingAppend(Bare(backends[..n]), last, ());
      assert last.keys != [] ==> last.keys[1..] == [];
      assert Copies(last.who, Occurrences(last.keys, ())) == if backends[n].claimsBare then [last.who] else [];
    }
  }

  lemma {:induction false} SharingAppend<C, K>(front: seq<Contributor<C, K>>, last: Contributor<C, K>, key: K)
    ensures Sharing(front + [last], key) == Sharing(front, key) + Copies(last.who, Occurrences(last.keys, key))
    decreases |front|
  {
    if front == [] {
      assert [] + [last] == [last] && [last][1..] == [];
      ConcatEmpty(Copies(last.who, Occurrences(last.keys, key)));
    } else {
      assert (front + [last])[1..] == front[1..] + [last];
      SharingAppend(front[1..], last, key);
      ConcatAssociates(Copies(front[0].who, Occurrences(front[0].keys, key)), Sharing(front[1..], key),
                       Copies(last.who, Occurrences(last.keys, key)));
    }
  }

  lemma {:induction false} BareAtMostOnce(backends: seq<Backend>)
    ensures |BareClaimants(backends)| <= 1 <==>
              forall i, j :: 0 <= i < j < |backends| ==> !(backends[i].claimsBare && backends[j].claimsBare)
    ensures BareClaimants(backends) == [] <==> forall i :: 0 <= i < |backends| ==> !backends[i].claimsBare
    decreases |backends|
  {
    if backends != [] {
      var front := backends[..|backends| - 1];
      BareAtMostOnce(front);
      assert forall i :: 0 <= i < |front| ==> front[i] == backends[i];
    }
  }

  lemma NamesOnce(backends: seq<Backend>)
    ensures NoKeyTwice(Named(backends)) <==>
              forall i, j :: 0 <= i < j < |backends| ==> backends[i].name != backends[j].name
  {
    var named := Named(backends);
    if NoKeyTwice(named) {
      forall i, j | 0 <= i < j < |backends| ensures backends[i].name != backends[j].name {
        assert named[i].keys[0] == backends[i].name && named[j].keys[0] == backends[j].name;
      }
    }
  }

  /**
   A registry is refused exactly when two backends have one name, a scheme is listed twice, an argument is
   brought twice by the shared uploads, the shared retries in use and the backends, or two backends claim
   bare locations.
   */
  lemma RegistryRefusedExactly(backends: seq<Backend>, uploads: seq<string>, retries: seq<string>)
    ensures Refusal(backends, uploads, retries).None? <==>
      && (forall i, j :: 0 <= i < j < |backends| ==> backends[i].name != backends[j].name)
      && NoKeyTwice(Schemed(backends))
      && NoKeyTwice(Arguments(backends, uploads, retries))
      && (forall i, j :: 0 <= i < j < |backends| ==> !(backends[i].claimsBare && backends[j].claimsBare))
  {
    RefusedExactly(backends, uploads, retries);
    NamesAreGathered(backends);
    SchemesAreGathered(backends);
    ArgumentsAreGathered(backends, uploads, retries);
    GatheredDiffer(Named(backends));
    GatheredDiffer(Schemed(backends));
    GatheredDiffer(Arguments(backends, uploads, retries));
    NamesOnce(backends);
    BareAtMostOnce(backends);
  }

  /** What a refused registry reports: a key, and all who bring it, in order. */
  lemma RegistryReports(backends: seq<Backend>, uploads: seq<string>, retries: seq<string>)
    requires Refusal(backends, uploads, retries).Some?
    ensures match Refusal(backends, uploads, retries).value
      case DuplicateBackendName(name, n) => n == |Sharing(Named(backends), name)| > 1
      case DuplicateScheme(scheme, names) =>
        && (forall i, j :: 0 <= i < j < |backends| ==> backends[i].name != backends[j].name)
        && names == Sharing(Schemed(backends), scheme) && |names| > 1
      case DuplicateCliArgument(argument, names) =>
        && (forall i, j :: 0 <= i < j < |backends| ==> backends[i].name != backends[j].name)
        && NoKeyTwice(Schemed(backends))
        && names == Sharing(Arguments(backends, uploads, retries), argument) && |names| > 1
      case MultipleBareLocationBackends(names) =>
        && NoKeyTwice(Arguments(backends, uploads, retries))
        && names == Sharing(Bare(backends), ()) && |names| > 1
  {
    FirstConflictIsEarliest(NameClaims(backends), 0);
    FirstConflictIsEarliest(SchemeClaims(backends), 0);
    FirstConflictIsEarliest(CliClaims(backends, uploads, retries), 0);
    NamesAreGathered(backends);
    SchemesAreGathered(backends);
    ArgumentsAreGathered(backends, uploads, retries);
    GatheredDiffer(Named(backends));
    GatheredDiffer(Schemed(backends));
    GatheredDiffer(Arguments(backends, uploads, retries));
    NamesOnce(backends);
    BareIsSharing(backends);
    match Refusal(backends, uploads, retries).value
    case DuplicateBackendName(name, _) => GatheredClaimants(Named(backends), name);
    case DuplicateScheme(scheme, _) => GatheredClaimants(Schemed(backends), scheme);
    case DuplicateCliArgument(argument, _) => GatheredClaimants(Arguments(backends, uploads, retries), argument);
    case MultipleBareLocationBackends(_) =>
  }

  // ---------- an application ----------

  function Files(direction: Direction, backends: seq<Backend>): seq<Contributor<RouteClaimant, string>> {
    seq(|backends|, i requires 0 <= i < |backends| =>
      Contributor(FileStorage(backends[i].name), if backends[i].Supports(direction) then backends[i].schemes else []))
  }

  function Services(services: seq<Service>): seq<Contributor<RouteClaimant, string>> {
    seq(|services|, i requires 0 <= i < |services| =>
      Contributor(ServiceAt(services[i].name, i + 1), services[i].schemes))
  }

  lemma RouteIsOwn(schemes: seq<string>, who: RouteClaimant)
    ensures Route(schemes, who) == OwnKeys(Contributor(who, schemes))
  {
  }

  lemma {:induction false} FilesAreGathered(direction: Direction, backends: seq<Backend>)
    ensures FileClaims(direction, backends) == Gathered(Files(direction, backends))
    decreases |backends|
  {
    if backends != [] {
      var n := |backends| - 1;
      var last := Contributor(FileStorage(backends[n].name),
                              if backends[n].Supports(direction) then backends[n].schemes else []);
      FilesAreGathered(direction, backends[..n]);
      assert Files(direction, backends) == Files(direction, backends[..n]) + [last];
      GatheredAppend(Files(direction, backends[..n]), last);
      RouteIsOwn(backends[n].schemes, FileStorage(backends[n].name));
      if !backends[n].Supports(direction) {
        assert OwnKeys(last) == [];
        ConcatEmpty(Gathered(Files(direction, backends[..n])));
      }
    }
  }

  lemma {:induction false} ServicesAreGathered(services: seq<Service>)
    ensures ServiceClaims(services) == Gathered(Services(services))
    decreases |services|
  {
    if services != [] {
      var n := |services| - 1;
      var last := Contributor(ServiceAt(services[n].name, n + 1), services[n].schemes);
      ServicesAreGathered(services[..n]);
      assert Services(services) == Services(services[..n]) + [last];
      GatheredAppend(Services(services[..n]), last);
      RouteIsOwn(services[n].schemes, ServiceAt(services[n].name, n + 1));
    }
  }

  /** Routes conflict exactly when a scheme is listed twice among the backends that support the direction and
    * the services, and a report names those who list it, files before services, each service with its place. */
  lemma RoutesConflictExactly(direction: Direction, backends: seq<Backend>, services: seq<Service>)
    ensures AllDifferent(RouteClaims(direction, backends, services)) <==>
              NoKeyTwice(Files(direction, backends) + Services(services))
    ensures forall scheme ::
              Claimants(RouteClaims(direction, backends, services), scheme) ==
              Sharing(Files(direction, backends) + Services(services), scheme)
  {
    var contributors := Files(direction, backends) + Services(services);
    FilesAreGathered(direction, backends);
    ServicesAreGathered(services);
    GatheredConcat(Files(direction, backends), Services(services));
    GatheredDiffer(contributors);
    forall scheme
      ensures Claimants(RouteClaims(direction, backends, services), scheme) == Sharing(contributors, scheme)
    {
      GatheredClaimants(contributors, scheme);
    }
  }

  /** A key on the command line belongs to an argument, by its identifier, its long or short name or an alias
    * of either, or to a group. */
  ghost predicate Brings(contribution: Contribution, key: CliKey) {
    || (exists n :: 0 <= n < |contribution.arguments| && Spells(contribution.arguments[n], key))
    || (key.Id? && key.id in contribution.groups)
  }

  predicate Spells(argument: Argument, key: CliKey) {
    match key
    case Id(id) => argument.id == id
    case Long(long) => argument.long == Some(long) || long in argument.longAliases
    case Short(short) => argument.short == Some(short) || short in argument.shortAliases
  }

  lemma ArgumentKeysExactly(argument: Argument, key: CliKey)
    ensures key in ArgumentKeys(argument) <==> Spells(argument, key)
  {
    var longs :=
      seq(|argument.longAliases|, i requires 0 <= i < |argument.longAliases| => Long(argument.longAliases[i]));
    var shorts :=
      seq(|argument.shortAliases|, i requires 0 <= i < |argument.shortAliases| => Short(argument.shortAliases[i]));
    if key.Long? && key.long in argument.longAliases {
      var i :| 0 <= i < |argument.longAliases| && argument.longAliases[i] == key.long;
      assert longs[i] == key;
    }
    if key.Short? && key.short in argument.shortAliases {
      var i :| 0 <= i < |argument.shortAliases| && argument.shortAliases[i] == key.short;
      assert shorts[i] == key;
    }
  }

  lemma {:induction false} AllArgumentKeysExactly(arguments: seq<Argument>, key: CliKey)
    ensures key in AllArgumentKeys(arguments) <==> exists n :: 0 <= n < |arguments| && Spells(arguments[n], key)
  {
    if arguments != [] {
      ArgumentKeysExactly(arguments[0], key);
      AllArgumentKeysExactly(arguments[1..], key);
      if n :| 0 <= n < |arguments| && Spells(arguments[n], key) {
        assert n > 0 ==> arguments[1..][n - 1] == arguments[n];
      }
      if n :| 0 <= n < |arguments| - 1 && Spells(arguments[1..][n], key) {
        assert arguments[n + 1] == arguments[1..][n];
      }
    }
  }

  lemma KeysExactly(contribution: Contribution, key: CliKey)
    ensures HasKey(contribution, key) <==> Brings(contribution, key)
  {
    var groups := seq(|contribution.groups|, i requires 0 <= i < |contribution.groups| => Id(contribution.groups[i]));
    AllArgumentKeysExactly(contribution.arguments, key);
    if key.Id? && key.id in contribution.groups {
      var i :| 0 <= i < |contribution.groups| && contribution.groups[i] == key.id;
      assert groups[i] == key;
    }
  }

  /** The contributors that bring a key, once each, in order. */
  ghost function Bringing(contributions: seq<Contribution>, key: CliKey): seq<string> {
    if contributions == [] then []
    else (if Brings(contributions[0], key) then [contributions[0].claimant] else []) + Bringing(contributions[1..], key)
  }

  lemma {:induction false} OneClaimant<C, K>(claims: seq<Claim<K, C>>, who: C, key: K)
    requires AllDifferent(claims) && forall i :: 0 <= i < |claims| ==> claims[i].claimant == who
    ensures Claimants(claims, key) == if Claimed(claims, key) then [who] else []
  {
    ClaimantsCount(claims, key);
    ClaimantsAre(claims, who, key);
    if Claimed(claims, key) {
      assert |Claimants(claims, key)| == 1;
    }
  }

  lemma {:induction false} ClaimantsAre<C, K>(claims: seq<Claim<K, C>>, who: C, key: K)
    requires forall i :: 0 <= i < |claims| ==> claims[i].claimant == who
    ensures forall k :: 0 <= k < |Claimants(claims, key)| ==> Claimants(claims, key)[k] == who
  {
    if claims != [] {
      ClaimantsAre(claims[..|claims| - 1], who, key);
    }
  }

  lemma OwnKeyClaimants(contribution: Contribution, key: CliKey)
    ensures Claimants(OwnClaims(contribution), key) ==
            if Brings(contribution, key) then [contribution.claimant] else []
  {
    OwnClaimsAreKeys(contribution, key);
    KeysExactly(contribution, key);
    OneClaimant(OwnClaims(contribution), contribution.claimant, key);
  }

  lemma {:induction false} BringingAppend(front: seq<Contribution>, last: Contribution, key: CliKey)
    ensures Bringing(front + [last], key) ==
            Bringing(front, key) + (if Brings(last, key) then [last.claimant] else [])
    decreases |front|
  {
    if front == [] {
      assert [] + [last] == [last] && [last][1..] == [];
      ConcatEmpty(if Brings(last, key) then [last.claimant] else []);
    } else {
      assert (front + [last])[1..] == front[1..] + [last];
      BringingAppend(front[1..], last, key);
      ConcatAssociates(if Brings(front[0], key) then [front[0].claimant] else [], Bringing(front[1..], key),
                       if Brings(last, key) then [last.claimant] else []);
    }
  }

  /** A reported key names every contributor that brings it, once. */
  lemma {:induction false} KeyClaimantsExactly(contributions: seq<Contribution>, key: CliKey)
    ensures Claimants(KeyClaims(contributions), key) == Bringing(contributions, key)
    decreases |contributions|
  {
    if contributions != [] {
      var front, last := contributions[..|contributions| - 1], contributions[|contributions| - 1];
      KeyClaimantsExactly(front, key);
      OwnKeyClaimants(last, key);
      assert Claimants(KeyClaims(contributions), key) == Bringing(front, key) + Claimants(OwnClaims(last), key) by {
        ClaimantsConcat(KeyClaims(front), OwnClaims(last), key);
      }
      BringingAppend(front, last, key);
      assert front + [last] == contributions;
    }
  }

  /** Contributors are apart exactly when no two of them bring one key, whether as an argument's name, an alias or
    * a group. */
  lemma ApartExactly(contributions: seq<Contribution>)
    ensures Apart(contributions) <==>
              forall a, b, key ::
                0 <= a < b < |contributions| && Brings(contributions[a], key) ==> !Brings(contributions[b], key)
  {
    forall a, key | 0 <= a < |contributions| ensures HasKey(contributions[a], key) <==> Brings(contributions[a], key) {
      KeysExactly(contributions[a], key);
    }
  }

  /** The services of a name, each with its place and its schemes. */
  function Places(services: seq<Service>, name: string, from: nat): seq<Snapshot> {
    if services == [] then []
    else
      (if services[0].name == name then [Snapshot(from + 1, name, services[0].schemes)] else [])
      + Places(services[1..], name, from + 1)
  }

  lemma {:induction false} PlacesAppend(front: seq<Service>, last: Service, name: string, from: nat)
    ensures Places(front + [last], name, from) ==
            Places(front, name, from)
            + (if last.name == name then [Snapshot(from + |front| + 1, name, last.schemes)] else [])
    decreases |front|
  {
    if front == [] {
      assert [] + [last] == [last] && [last][1..] == [];
      ConcatEmpty(Places([last], name, from));
      ConcatEmpty(if last.name == name then [Snapshot(from + 1, name, last.schemes)] else []);
    } else {
      assert (front + [last])[1..] == front[1..] + [last];
      PlacesAppend(front[1..], last, name, from + 1);
      ConcatAssociates(if front[0].name == name then [Snapshot(from + 1, name, front[0].schemes)] else [],
                       Places(front[1..], name, from + 1),
                       if last.name == name then [Snapshot(from + |front| + 1, name, last.schemes)] else []);
    }
  }

  /** A repeated service name is reported with every service that has it, in order, counted from 1. */
  lemma {:induction false} SnapshotsExactly(services: seq<Service>, name: string)
    ensures SnapshotsNamed(services, name) == Places(services, name, 0)
    decreases |services|
  {
    if services != [] {
      var n := |services| - 1;
      SnapshotsExactly(services[..n], name);
      assert ServiceNameClaims(services)[..n] == ServiceNameClaims(services[..n]);
      PlacesAppend(services[..n], services[n], name, 0);
      assert services[..n] + [services[n]] == services;
    }
  }

}
