/** Assembling the application: routes by URL scheme for files and services, and the command
  * line keys that every contributor brings.
  */
module Application {

  import opened Claims
  import opened FirstOccurrences
  import opened Registry
  import opened Text
  import opened Wrappers

  datatype Service = Service(name: string, schemes: seq<string>)

  datatype RouteClaimant = FileStorage(backend: string) | ServiceAt(service: string, position: nat)

  datatype SchemeOwner = FileRoute | ServiceRoute(index: nat)

  datatype Snapshot = Snapshot(position: nat, name: string, schemes: seq<string>)

  datatype CliKey = Id(id: string) | Long(long: string) | Short(short: char)

  datatype Argument = Argument(
    id: string, long: Option<string>, longAliases: seq<string>, short: Option<char>, shortAliases: seq<char>)

  datatype Contribution = Contribution(claimant: string, arguments: seq<Argument>, groups: seq<string>)

  // ---------- the order of the reports ----------

  lemma LessTextIsTotal(a: string, b: string)
    ensures !LessText(a, a)
    ensures LessText(a, b) || LessText(b, a) || a == b
  {
    LexicographicIsTrichotomous(LessChar, a, b);
  }

  lemma {:induction false} LessTextIsTransitive(a: string, b: string, c: string)
    requires LessText(a, b) && LessText(b, c)
    ensures LessText(a, c)
  {
    if a != "" && a[0] == b[0] == c[0] {
      LessTextIsTransitive(a[1..], b[1..], c[1..]);
    }
  }

  lemma LessTextIsATotalOrder()
    ensures TotalOrder(LessText)
  {
    forall a, b ensures !LessText(a, a) && (LessText(a, b) || LessText(b, a) || a == b) {
      LessTextIsTotal(a, b);
    }
    forall a, b, c | LessText(a, b) && LessText(b, c) ensures LessText(a, c) {
      LessTextIsTransitive(a, b, c);
    }
  }

  /** Identifiers before long names before short names. */
  predicate LessKey(a: CliKey, b: CliKey) {
    match (a, b)
    case (Id(x), Id(y)) => LessText(x, y)
    case (Long(x), Long(y)) => LessText(x, y)
    case (Short(x), Short(y)) => x < y
    case (Id(_), _) => true
    case (Long(_), Short(_)) => true
    case _ => false
  }

  lemma LessKeyIsATotalOrder()
    ensures TotalOrder(LessKey)
  {
    LessTextIsATotalOrder();
    forall a, b ensures !LessKey(a, a) && (LessKey(a, b) || LessKey(b, a) || a == b) {
      if a.Id? && b.Id? {
        LessTextIsTotal(a.id, b.id);
      } else if a.Long? && b.Long? {
        LessTextIsTotal(a.long, b.long);
      }
      if a.Id? {
        LessTextIsTotal(a.id, a.id);
      } else if a.Long? {
        LessTextIsTotal(a.long, a.long);
      }
    }
    forall a, b, c | LessKey(a, b) && LessKey(b, c) ensures LessKey(a, c) {
      if a.Id? && b.Id? && c.Id? {
        LessTextIsTransitive(a.id, b.id, c.id);
      } else if a.Long? && b.Long? && c.Long? {
        LessTextIsTransitive(a.long, b.long, c.long);
      }
    }
  }

  // ---------- routes by scheme ----------

  type RouteClaim = Claim<string, RouteClaimant>

  function Route(schemes: seq<string>, claimant: RouteClaimant): seq<RouteClaim> {
    seq(|schemes|, i requires 0 <= i < |schemes| => Claim(schemes[i], claimant))
  }

  function FileClaims(direction: Direction, backends: seq<Backend>): seq<RouteClaim> {
    if backends == [] then []
    else
      var front, last := FileClaims(direction, backends[..|backends| - 1]), backends[|backends| - 1];
      if last.Supports(direction) then front + Route(last.schemes, FileStorage(last.name)) else front
  }

  function ServiceClaims(services: seq<Service>): seq<RouteClaim> {
    if services == [] then []
    else
      var n := |services| - 1;
      ServiceClaims(services[..n]) + Route(services[n].schemes, ServiceAt(services[n].name, n + 1))
  }

  function RouteClaims(direction: Direction, backends: seq<Backend>, services: seq<Service>): seq<RouteClaim> {
    FileClaims(direction, backends) + ServiceClaims(services)
  }

  predicate Listed(direction: Direction, backends: seq<Backend>, scheme: string) {
    exists i :: 0 <= i < |backends| && backends[i].Supports(direction) && scheme in backends[i].schemes
  }

  function ServiceSchemes(service: Service): seq<string> {
    service.schemes
  }

  /** The first service that lists a scheme. */
  function ServiceOwner(services: seq<Service>, scheme: string): Option<nat> {
    FirstOwner(services, ServiceSchemes, scheme)
  }

  /** What searching the definitions answers: files first, then the services in order. */
  function RouteOwner(direction: Direction, backends: seq<Backend>, services: seq<Service>, scheme: string)
    : Option<SchemeOwner>
  {
    if Listed(direction, backends, scheme) then Some(FileRoute)
    else
      match ServiceOwner(services, scheme)
      case None => None
      case Some(n) => Some(ServiceRoute(n))
  }

  /** A scheme is a file's when some backend lists it; else it is the service's that lists it and has none before
    * it that does; else nobody's. */
  lemma RouteOwnerExactly(direction: Direction, backends: seq<Backend>, services: seq<Service>, scheme: string)
    ensures var owner := RouteOwner(direction, backends, services, scheme);
      && (owner == Some(FileRoute) <==> Listed(direction, backends, scheme))
      && (forall n: nat :: owner == Some(ServiceRoute(n)) <==>
            && !Listed(direction, backends, scheme)
            && n < |services| && scheme in services[n].schemes
            && forall i :: 0 <= i < n ==> scheme !in services[i].schemes)
      && (owner == None <==>
            && !Listed(direction, backends, scheme)
            && forall i :: 0 <= i < |services| ==> scheme !in services[i].schemes)
  {
    var owner := ServiceOwner(services, scheme);
    if owner.None? {
      forall i | 0 <= i < |services| ensures scheme !in services[i].schemes {
        assert scheme !in ServiceSchemes(services[i]);
      }
    } else {
      assert scheme in ServiceSchemes(services[owner.value]);
      forall i | 0 <= i < owner.value ensures scheme !in services[i].schemes {
        assert scheme !in ServiceSchemes(services[i]);
      }
    }
  }

  predicate Routes(index: map<string, SchemeOwner>, scheme: string, owner: Option<SchemeOwner>) {
    if scheme in index then owner == Some(index[scheme]) else owner == None
  }

  lemma RouteClaimsSchemes(schemes: seq<string>, claimant: RouteClaimant, scheme: string)
    ensures Claimed(Route(schemes, claimant), scheme) <==> scheme in schemes
  {
    var claims := Route(schemes, claimant);
    if scheme in schemes {
      var i :| 0 <= i < |schemes| && schemes[i] == scheme;
      assert claims[i].key == scheme;
    }
  }

  lemma {:induction false} FileClaimsListed(direction: Direction, backends: seq<Backend>, scheme: string)
    ensures Claimed(FileClaims(direction, backends), scheme) <==> Listed(direction, backends, scheme)
  {
    if backends != [] {
      var n := |backends| - 1;
      FileClaimsListed(direction, backends[..n], scheme);
      RouteClaimsSchemes(backends[n].schemes, FileStorage(backends[n].name), scheme);
      ClaimedConcat(
        FileClaims(direction, backends[..n]), Route(backends[n].schemes, FileStorage(backends[n].name)), scheme);
      ListedOneMore(direction, backends, n, scheme);
      assert backends[..n + 1] == backends;
    }
  }

  lemma ListedOneMore(direction: Direction, backends: seq<Backend>, n: nat, scheme: string)
    requires n < |backends|
    ensures Listed(direction, backends[..n + 1], scheme) <==>
              || Listed(direction, backends[..n], scheme)
              || (backends[n].Supports(direction) && scheme in backends[n].schemes)
  {
    var more := backends[..n + 1];
    if Listed(direction, backends[..n], scheme) {
      var i :| 0 <= i < n && backends[..n][i].Supports(direction) && scheme in backends[..n][i].schemes;
      assert more[i] == backends[..n][i];
    }
    if backends[n].Supports(direction) && scheme in backends[n].schemes {
      assert more[n] == backends[n];
    }
    if i :| 0 <= i < |more| && more[i].Supports(direction) && scheme in more[i].schemes {
      assert i < n ==> backends[..n][i] == more[i];
    }
  }

  lemma {:induction false} ServiceClaimsOwned(services: seq<Service>, scheme: string)
    ensures Claimed(ServiceClaims(services), scheme) <==> ServiceOwner(services, scheme).Some?
  {
    if services != [] {
      var n := |services| - 1;
      ServiceClaimsOwned(services[..n], scheme);
      RouteClaimsSchemes(services[n].schemes, ServiceAt(services[n].name, n + 1), scheme);
      ClaimedConcat(
        ServiceClaims(services[..n]), Route(services[n].schemes, ServiceAt(services[n].name, n + 1)), scheme);
    }
  }

  lemma {:induction false} ServicePrefixIsDifferent(services: seq<Service>, n: nat)
    requires n <= |services| && AllDifferent(ServiceClaims(services))
    ensures AllDifferent(ServiceClaims(services[..n]))
    decreases |services| - n
  {
    if n == |services| {
      assert services[..n] == services;
    } else {
      ServicePrefixIsDifferent(services, n + 1);
      assert services[..n + 1][..n] == services[..n];
      AllDifferentConcat(ServiceClaims(services[..n]), Route(services[n].schemes, ServiceAt(services[n].name, n + 1)));
    }
  }

  /** Without conflicts, a service's schemes are free of files and of earlier services. */
  lemma ServiceSchemesAreNew(
    direction: Direction, backends: seq<Backend>, services: seq<Service>, n: nat, scheme: string)
    requires AllDifferent(RouteClaims(direction, backends, services)) && n < |services| && scheme in services[n].schemes
    ensures !Listed(direction, backends, scheme) && ServiceOwner(services[..n], scheme).None?
    ensures ServiceOwner(services[..n + 1], scheme) == Some(n)
  {
    var earlier, own := ServiceClaims(services[..n]), Route(services[n].schemes, ServiceAt(services[n].name, n + 1));
    AllDifferentConcat(FileClaims(direction, backends), ServiceClaims(services));
    FileClaimsListed(direction, backends, scheme);
    ServiceClaimsOwned(services, scheme);
    assert ServiceOwner(services, scheme).Some?;
    ServicePrefixIsDifferent(services, n + 1);
    assert services[..n + 1][..n] == services[..n];
    AllDifferentConcat(earlier, own);
    RouteClaimsSchemes(services[n].schemes, ServiceAt(services[n].name, n + 1), scheme);
    ServiceClaimsOwned(services[..n], scheme);
  }

  method InsertAll(index: map<string, SchemeOwner>, schemes: seq<string>, owner: SchemeOwner)
    returns (result: map<string, SchemeOwner>)
    ensures forall scheme :: Routes(result, scheme,
      if scheme in schemes then Some(owner) else if scheme in index then Some(index[scheme]) else None)
  {
    result := index;
    for j := 0 to |schemes|
      invariant forall scheme :: Routes(result, scheme,
        if scheme in schemes[..j] then Some(owner) else if scheme in index then Some(index[scheme]) else None)
    {
      assert schemes[..j + 1] == schemes[..j] + [schemes[j]];
      result := result[schemes[j] := owner];
    }
    assert schemes[..|schemes|] == schemes;
  }

  method IndexFiles(direction: Direction, backends: seq<Backend>) returns (index: map<string, SchemeOwner>)
    ensures forall scheme ::
              Routes(index, scheme, if Listed(direction, backends, scheme) then Some(FileRoute) else None)
  {
    index := map[];
    for n := 0 to |backends|
      invariant forall scheme ::
        Routes(index, scheme, if Listed(direction, backends[..n], scheme) then Some(FileRoute) else None)
    {
      ghost var done := backends[..n + 1];
      ghost var before := index;
      if backends[n].Supports(direction) {
        index := InsertAll(index, backends[n].schemes, FileRoute);
      }
      forall scheme ensures Routes(index, scheme, if Listed(direction, done, scheme) then Some(FileRoute) else None) {
        assert Routes(before, scheme, if Listed(direction, backends[..n], scheme) then Some(FileRoute) else None);
        ListedOneMore(direction, backends, n, scheme);
      }
    }
    assert backends[..|backends|] == backends;
  }

  /** The index is built exactly when no scheme is claimed twice among the backends that support
    * the direction and the services; the report is then the smallest such scheme with all its
    * claimants.  Lookups answer what a search of the definitions would. */
  method NewSchemeIndex(direction: Direction, backends: seq<Backend>, services: seq<Service>)
    returns (result: Result<map<string, SchemeOwner>, Conflict<string, RouteClaimant>>)
    ensures result.Success? <==> AllDifferent(RouteClaims(direction, backends, services))
    ensures result.Failure? ==>
      IsSmallestConflict(RouteClaims(direction, backends, services), LessText, Some(result.error))
    ensures result.Success? ==>
      forall scheme :: Routes(result.value, scheme, RouteOwner(direction, backends, services, scheme))
  {
    LessTextIsATotalOrder();
    var conflict := FindSmallestConflict(RouteClaims(direction, backends, services), LessText);
    if conflict.Some? {
      ClaimantsCount(RouteClaims(direction, backends, services), conflict.value.key);
      return Failure(conflict.value);
    }
    var index := IndexFiles(direction, backends);
    assert forall scheme :: ServiceOwner(services[..0], scheme) == None;
    for n := 0 to |services|
      invariant forall scheme :: Routes(index, scheme, RouteOwner(direction, backends, services[..n], scheme))
    {
      ghost var before := index;
      ghost var done := services[..n + 1];
      index := InsertAll(index, services[n].schemes, ServiceRoute(n));
      forall scheme ensures Routes(index, scheme, RouteOwner(direction, backends, done, scheme)) {
        assert Routes(before, scheme, RouteOwner(direction, backends, services[..n], scheme));
        assert done[..n] == services[..n];
        if scheme in services[n].schemes {
          ServiceSchemesAreNew(direction, backends, services, n, scheme);
        }
      }
    }
    assert services[..|services|] == services;
    result := Success(index);
  }

  // ---------- command line keys ----------

  function ArgumentKeys(argument: Argument): seq<CliKey> {
    [Id(argument.id)]
    + (if argument.long.Some? then [Long(argument.long.value)] else [])
    + seq(|argument.longAliases|, i requires 0 <= i < |argument.longAliases| => Long(argument.longAliases[i]))
    + (if argument.short.Some? then [Short(argument.short.value)] else [])
    + seq(|argument.shortAliases|, i requires 0 <= i < |argument.shortAliases| => Short(argument.shortAliases[i]))
  }

  function AllArgumentKeys(arguments: seq<Argument>): seq<CliKey> {
    if arguments == [] then [] else ArgumentKeys(arguments[0]) + AllArgumentKeys(arguments[1..])
  }

  function ContributionKeys(contribution: Contribution): seq<CliKey> {
    AllArgumentKeys(contribution.arguments)
    + seq(|contribution.groups|, i requires 0 <= i < |contribution.groups| => Id(contribution.groups[i]))
  }

  /** One contributor claims each of its keys once, however often it uses it. */
  function OwnClaims(contribution: Contribution): seq<Claim<CliKey, string>> {
    var keys := Unseen(ContributionKeys(contribution), Itself, {});
    seq(|keys|, i requires 0 <= i < |keys| => Claim(keys[i], contribution.claimant))
  }

  function KeyClaims(contributions: seq<Contribution>): seq<Claim<CliKey, string>> {
    if contributions == [] then []
    else KeyClaims(contributions[..|contributions| - 1]) + OwnClaims(contributions[|contributions| - 1])
  }

  predicate HasKey(contribution: Contribution, key: CliKey) {
    key in ContributionKeys(contribution)
  }

  lemma OwnClaimsAreKeys(contribution: Contribution, key: CliKey)
    ensures AllDifferent(OwnClaims(contribution))
    ensures Claimed(OwnClaims(contribution), key) <==> HasKey(contribution, key)
  {
    var keys, kept := ContributionKeys(contribution), Unseen(ContributionKeys(contribution), Itself, {});
    var claims := OwnClaims(contribution);
    UnseenIsDistinct(keys, Itself, {});
    UnseenCovers(keys, Itself, {}, key);
    forall i, j | 0 <= i < j < |claims| ensures claims[i].key != claims[j].key {
      assert Itself(kept[i]) != Itself(kept[j]);
    }
    if Claimed(claims, key) {
      var i :| 0 <= i < |claims| && claims[i].key == key;
      assert Itself(kept[i]) == key;
    }
    if HasKey(contribution, key) {
      var n :| 0 <= n < |keys| && keys[n] == key;
      assert Itself(keys[n]) == key;
      var i :| 0 <= i < |kept| && Itself(kept[i]) == key;
      assert claims[i].key == key;
    }
  }

  ghost predicate SomeHas(contributions: seq<Contribution>, key: CliKey) {
    exists a :: 0 <= a < |contributions| && HasKey(contributions[a], key)
  }

  /** No two of the contributors share a key. */
  ghost predicate Apart(contributions: seq<Contribution>) {
    forall a, b, key ::
      0 <= a < b < |contributions| && HasKey(contributions[a], key) ==> !HasKey(contributions[b], key)
  }

  lemma SomeHasOneMore(front: seq<Contribution>, last: Contribution, key: CliKey)
    ensures SomeHas(front + [last], key) <==> SomeHas(front, key) || HasKey(last, key)
  {
    var all := front + [last];
    assert forall a :: 0 <= a < |front| ==> all[a] == front[a];
    assert all[|front|] == last;
  }

  lemma ApartOneMore(front: seq<Contribution>, last: Contribution)
    ensures Apart(front + [last]) <==> Apart(front) && forall key :: SomeHas(front, key) ==> !HasKey(last, key)
  {
    var all := front + [last];
    assert forall a :: 0 <= a < |front| ==> all[a] == front[a];
    assert all[|front|] == last;
  }

  lemma {:induction false} KeyClaimsAreKeys(contributions: seq<Contribution>, key: CliKey)
    ensures Claimed(KeyClaims(contributions), key) <==> SomeHas(contributions, key)
  {
    if contributions != [] {
      var n := |contributions| - 1;
      KeyClaimsAreKeys(contributions[..n], key);
      OwnClaimsAreKeys(contributions[n], key);
      ClaimedConcat(KeyClaims(contributions[..n]), OwnClaims(contributions[n]), key);
      SomeHasOneMore(contributions[..n], contributions[n], key);
      assert contributions[..n] + [contributions[n]] == contributions;
    }
  }

  /** Keys conflict exactly when two different contributors share one; using a key twice within
    * one contribution is no conflict. */
  lemma {:induction false} KeysConflictAcrossContributors(contributions: seq<Contribution>)
    ensures AllDifferent(KeyClaims(contributions)) <==> Apart(contributions)
  {
    if contributions != [] {
      var n := |contributions| - 1;
      var front, last := contributions[..n], contributions[n];
      KeysConflictAcrossContributors(front);
      forall key
        ensures Claimed(KeyClaims(front), key) <==> SomeHas(front, key)
        ensures AllDifferent(OwnClaims(last)) && (Claimed(OwnClaims(last), key) <==> HasKey(last, key))
      {
        KeyClaimsAreKeys(front, key);
        OwnClaimsAreKeys(last, key);
      }
      OwnClaimsAreKeys(last, Short('?'));
      AllDifferentConcat(KeyClaims(front), OwnClaims(last));
      ApartOneMore(front, last);
      assert front + [last] == contributions;
    }
  }

  /** Adds one contributor's keys, each once. */
  method AddCliKeyClaims(claims: seq<Claim<CliKey, string>>, contribution: Contribution)
    returns (more: seq<Claim<CliKey, string>>)
    ensures more == claims + OwnClaims(contribution)
  {
    var keys := UniqueBy(ContributionKeys(contribution), Itself);
    more := claims;
    for i := 0 to |keys|
      invariant more == claims + OwnClaims(contribution)[..i]
    {
      more := more + [Claim(keys[i], contribution.claimant)];
    }
  }

  method ValidateCliKeyClaims(contributions: seq<Contribution>) returns (conflict: Option<Conflict<CliKey, string>>)
    ensures conflict.None? <==> Apart(contributions)
    ensures IsSmallestConflict(KeyClaims(contributions), LessKey, conflict)
  {
    var claims := [];
    for n := 0 to |contributions|
      invariant claims == KeyClaims(contributions[..n])
    {
      assert contributions[..n + 1][..n] == contributions[..n];
      claims := AddCliKeyClaims(claims, contributions[n]);
    }
    assert contributions[..|contributions|] == contributions;
    LessKeyIsATotalOrder();
    conflict := FindSmallestConflict(claims, LessKey);
    KeysConflictAcrossContributors(contributions);
    if conflict.Some? {
      ClaimantsCount(claims, conflict.value.key);
    }
  }

  // ---------- service names ----------

  function ServiceNameClaims(services: seq<Service>): seq<Claim<string, Snapshot>> {
    seq(|services|, i requires 0 <= i < |services| =>
      Claim(services[i].name, Snapshot(i + 1, services[i].name, services[i].schemes)))
  }

  function SnapshotsNamed(services: seq<Service>, name: string): seq<Snapshot> {
    Claimants(ServiceNameClaims(services), name)
  }

  /** For each service in turn, looks for others of the same name. */
  method ValidateServiceNames(services: seq<Service>) returns (conflict: Option<Conflict<string, Snapshot>>)
    ensures conflict == FirstConflict(ServiceNameClaims(services))
    ensures conflict.None? <==> forall i, j :: 0 <= i < j < |services| ==> services[i].name != services[j].name
  {
    ghost var claims := ServiceNameClaims(services);
    FirstConflictIsEarliest(claims, 0);
    assert AllDifferent(claims) <==>
             forall i, j :: 0 <= i < j < |services| ==> services[i].name != services[j].name by {
      assert forall i :: 0 <= i < |services| ==> claims[i].key == services[i].name;
    }
    for n := 0 to |services|
      invariant forall j :: 0 <= j < n ==> Single(claims, j)
    {
      var snapshots := SnapshotsNamed(services, services[n].name);
      if |snapshots| > 1 {
        ConflictAt(claims, 0, n);
        return Some(Conflict(services[n].name, snapshots));
      }
      assert Single(claims, n);
    }
    ConflictAt(claims, 0, |claims|);
    conflict := None;
  }

  // ---------- the whole application ----------

  datatype AssemblyError =
    | DuplicateServiceInputName(inputName: Conflict<string, Snapshot>)
    | DuplicateServiceOutputName(outputName: Conflict<string, Snapshot>)
    | InputSchemeClaimConflict(inputScheme: Conflict<string, RouteClaimant>)
    | OutputSchemeClaimConflict(outputScheme: Conflict<string, RouteClaimant>)
    | CliKeyClaimConflict(key: Conflict<CliKey, string>)

  datatype SchemeIndexes = SchemeIndexes(input: map<string, SchemeOwner>, output: map<string, SchemeOwner>)

  ghost predicate NamesApart(services: seq<Service>) {
    forall i, j :: 0 <= i < j < |services| ==> services[i].name != services[j].name
  }

  /** The parts fit together exactly when names, input routes, output routes and command line
    * keys are each free of conflicts, and the error names the first kind that is not. */
  method FromParts(
    backends: seq<Backend>, inputs: seq<Service>, outputs: seq<Service>, contributions: seq<Contribution>)
    returns (result: Result<SchemeIndexes, AssemblyError>)
    ensures result.Success? <==>
      && NamesApart(inputs) && NamesApart(outputs)
      && AllDifferent(RouteClaims(Input, backends, inputs)) && AllDifferent(RouteClaims(Output, backends, outputs))
      && Apart(contributions)
    ensures result.Failure? ==>
      match result.error
      case DuplicateServiceInputName(c) => FirstConflict(ServiceNameClaims(inputs)) == Some(c)
      case DuplicateServiceOutputName(c) => NamesApart(inputs) && FirstConflict(ServiceNameClaims(outputs)) == Some(c)
      case InputSchemeClaimConflict(c) =>
        && NamesApart(inputs) && NamesApart(outputs)
        && IsSmallestConflict(RouteClaims(Input, backends, inputs), LessText, Some(c))
      case OutputSchemeClaimConflict(c) =>
        && NamesApart(inputs) && NamesApart(outputs) && AllDifferent(RouteClaims(Input, backends, inputs))
        && IsSmallestConflict(RouteClaims(Output, backends, outputs), LessText, Some(c))
      case CliKeyClaimConflict(c) =>
        && NamesApart(inputs) && NamesApart(outputs)
        && AllDifferent(RouteClaims(Input, backends, inputs)) && AllDifferent(RouteClaims(Output, backends, outputs))
        && IsSmallestConflict(KeyClaims(contributions), LessKey, Some(c))
    ensures result.Success? ==> forall scheme ::
      && Routes(result.value.input, scheme, RouteOwner(Input, backends, inputs, scheme))
      && Routes(result.value.output, scheme, RouteOwner(Output, backends, outputs, scheme))
  {
    var inputName := ValidateServiceNames(inputs);
    if inputName.Some? {
      return Failure(DuplicateServiceInputName(inputName.value));
    }
    var outputName := ValidateServiceNames(outputs);
    if outputName.Some? {
      return Failure(DuplicateServiceOutputName(outputName.value));
    }
    var input := NewSchemeIndex(Input, backends, inputs);
    if input.Failure? {
      return Failure(InputSchemeClaimConflict(input.error));
    }
    var output := NewSchemeIndex(Output, backends, outputs);
    if output.Failure? {
      return Failure(OutputSchemeClaimConflict(output.error));
    }
    var key := ValidateCliKeyClaims(contributions);
    if key.Some? {
      return Failure(CliKeyClaimConflict(key.value));
    }
    result := Success(SchemeIndexes(input.value, output.value));
  }

}
