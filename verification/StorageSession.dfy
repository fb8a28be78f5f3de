/** One command's storage session: routing to backends, the shared cache of store clients, and
  * the claims that keep two outputs from sharing an object.
  */
module StorageSession {

  import opened Registry
  import opened Wrappers

  datatype Url = Url(scheme: string, authority: string, path: string, query: Option<string>)

  /** The store a URL belongs to: the URL without its path and query. */
  function StoreUrl(url: Url): Url {
    Url(url.scheme, url.authority, "/", None)
  }

  predicate SameStore(a: Url, b: Url) {
    a.scheme == b.scheme && a.authority == b.authority
  }

  /** A store is a scheme and an authority: paths and queries do not tell stores apart. */
  lemma StoreIsSchemeAndAuthority(a: Url, b: Url)
    ensures StoreUrl(a) == StoreUrl(b) <==> SameStore(a, b)
    ensures SameStore(StoreUrl(a), a) && StoreUrl(StoreUrl(a)) == StoreUrl(a)
  {
  }

  datatype LocationInput = UrlInput(url: Url) | BareInput(text: string)

  /** A backend bound to its settings.  `mapBare` and `objectPath` stand for the backend's own
    * mapping of bare locations and the object store's path syntax. */
  datatype Binding = Binding(
    name: string,
    input: bool,
    output: bool,
    sharedRetries: bool,
    mapBare: Option<string -> Option<Url>>,
    accepts: Url -> bool)
  {
    predicate Supports(direction: Direction) {
      match direction case Input => input case Output => output
    }
  }

  datatype Settings = Settings(
    backends: seq<Binding>, routing: RoutingIndex, retry: Option<nat>, objectPath: string -> Option<string>)

  /** A store client, described by what it was built from. */
  datatype Client = Client(backend: nat, store: Url, retry: Option<nat>)

  datatype Handle = Handle(url: Url, client: Client, objectPath: string, store: Url)

  datatype StorageError =
    | UnsupportedScheme(scheme: string)
    | UnsupportedBareLocation(text: string)
    | DirectionUnsupported(backend: string, direction: Direction)
    | BareLocationMapping(mapper: string, bareText: string)
    | BareLocationSchemeMismatch(mapper: string, mappedScheme: string)
    | BarePatternSchemeMismatch(mapper: string, mappedScheme: string)
    | LocationValidation(validator: string, location: Url)
    | InvalidObjectPath(location: Url)
    | ObjectStoreCreation(creator: string, store: Url)
    | OutputTargetAlreadyClaimed(target: Url)
    | OutputTargetAlreadyExists(target: Url)
    | ExistenceCheck(target: Url)
    | OutputTargetPreparation(preparer: string, target: Url)

  /** What building the registry guarantees: routes name backends, and the bare route one that
    * can map bare locations. */
  predicate Routed(settings: Settings) {
    && (forall scheme :: scheme in settings.routing.byScheme ==>
          settings.routing.byScheme[scheme] < |settings.backends|)
    && (settings.routing.bare.Some? ==>
          settings.routing.bare.value < |settings.backends|
          && settings.backends[settings.routing.bare.value].mapBare.Some?)
  }

  /** The bindings a registry's definitions turn into. */
  predicate Binds(bindings: seq<Binding>, backends: seq<Backend>) {
    && |bindings| == |backends|
    && forall i :: 0 <= i < |backends| ==> backends[i].claimsBare == bindings[i].mapBare.Some?
  }

  /** A routing index that a registry built routes the session that uses it. */
  lemma RegistryRoutes(settings: Settings, backends: seq<Backend>)
    requires Binds(settings.backends, backends)
    requires forall scheme :: Indexes(settings.routing.byScheme, scheme, Owner(backends, scheme))
    requires settings.routing.bare == BareOwner(backends)
    ensures Routed(settings)
  {
    forall scheme | scheme in settings.routing.byScheme
      ensures settings.routing.byScheme[scheme] < |settings.backends|
    {
      assert Indexes(settings.routing.byScheme, scheme, Owner(backends, scheme));
    }
  }

  // ---------- routing ----------

  predicate Owns(settings: Settings, backend: nat, scheme: string) {
    scheme in settings.routing.byScheme && settings.routing.byScheme[scheme] == backend
  }

  function BackendForInput(settings: Settings, input: LocationInput): Result<nat, StorageError> {
    match input
    case UrlInput(url) =>
      if url.scheme in settings.routing.byScheme then Success(settings.routing.byScheme[url.scheme])
      else Failure(UnsupportedScheme(url.scheme))
    case BareInput(text) =>
      if settings.routing.bare.Some? then Success(settings.routing.bare.value)
      else Failure(UnsupportedBareLocation(text))
  }

  function MapLocation(settings: Settings, backend: nat, input: LocationInput): Result<Url, StorageError>
    requires Routed(settings) && BackendForInput(settings, input) == Success(backend)
  {
    match input
    case UrlInput(url) => Success(url)
    case BareInput(text) =>
      match settings.backends[backend].mapBare.value(text)
      case None => Failure(BareLocationMapping(settings.backends[backend].name, text))
      case Some(url) => Success(url)
  }

  /** The exact location an input names and the backend that serves it. */
  function Locate(settings: Settings, input: LocationInput, direction: Direction)
    : (located: Result<(Url, nat), StorageError>)
    requires Routed(settings)
    ensures located.Success? ==> Owns(settings, located.value.1, located.value.0.scheme)
  {
    match BackendForInput(settings, input)
    case Failure(error) => Failure(error)
    case Success(backend) =>
      if !settings.backends[backend].Supports(direction) then
        Failure(DirectionUnsupported(settings.backends[backend].name, direction))
      else
        match MapLocation(settings, backend, input)
        case Failure(error) => Failure(error)
        case Success(url) =>
          if !Owns(settings, backend, url.scheme) then
            Failure(BareLocationSchemeMismatch(settings.backends[backend].name, url.scheme))
          else Success((url, backend))
  }

  /** The backend and the URL an input stands for, whatever direction it is meant for. */
  predicate Denotes(settings: Settings, input: LocationInput, url: Url, backend: nat)
    requires Routed(settings)
  {
    match input
    case UrlInput(given) => url == given && Owns(settings, backend, given.scheme)
    case BareInput(text) =>
      && settings.routing.bare == Some(backend)
      && settings.backends[backend].mapBare.value(text) == Some(url)
  }

  predicate Chosen(settings: Settings, input: LocationInput, backend: nat)
    requires Routed(settings)
  {
    match input
    case UrlInput(url) => Owns(settings, backend, url.scheme)
    case BareInput(_) => settings.routing.bare == Some(backend)
  }

  predicate Unsupporting(settings: Settings, backend: nat, name: string, direction: Direction)
    requires backend < |settings.backends|
  {
    settings.backends[backend].name == name && !settings.backends[backend].Supports(direction)
  }

  predicate Supporting(settings: Settings, backend: nat, name: string, direction: Direction)
    requires backend < |settings.backends|
  {
    settings.backends[backend].name == name && settings.backends[backend].Supports(direction)
  }

  /** What an error says went wrong with an input: a route, the direction, the mapping of a bare location, or
    * the owner of what it was mapped to. */
  ghost predicate Explains(settings: Settings, input: LocationInput, direction: Direction, error: StorageError)
    requires Routed(settings)
  {
    match error
    case UnsupportedScheme(scheme) =>
      input.UrlInput? && input.url.scheme == scheme && scheme !in settings.routing.byScheme
    case UnsupportedBareLocation(text) => input == BareInput(text) && settings.routing.bare.None?
    case DirectionUnsupported(name, unsupported) =>
      && unsupported == direction
      && (exists backend: nat ::
            Chosen(settings, input, backend) && Unsupporting(settings, backend, name, direction))
    case BareLocationMapping(name, text) =>
      && input == BareInput(text)
      && (exists backend: nat ::
            && Chosen(settings, input, backend) && Supporting(settings, backend, name, direction)
            && settings.backends[backend].mapBare.value(text) == None)
    case BareLocationSchemeMismatch(name, scheme) =>
      && input.BareInput?
      && (exists backend: nat, url ::
            && Denotes(settings, input, url, backend) && Supporting(settings, backend, name, direction)
            && url.scheme == scheme && !Owns(settings, backend, scheme))
    case _ => false
  }

  predicate Serves(settings: Settings, input: LocationInput, direction: Direction, url: Url, backend: nat)
    requires Routed(settings)
  {
    && Denotes(settings, input, url, backend)
    && settings.backends[backend].Supports(direction)
    && Owns(settings, backend, url.scheme)
  }

  /** An input is located exactly when it denotes a URL, the backend it is routed to supports the direction
    * and that backend owns the URL's scheme. Otherwise the error says which of these fails. */
  lemma LocateExactly(settings: Settings, input: LocationInput, direction: Direction)
    requires Routed(settings)
    ensures forall url, backend: nat ::
              Locate(settings, input, direction) == Success((url, backend)) <==>
              Serves(settings, input, direction, url, backend)
    ensures Locate(settings, input, direction).Failure? ==>
              Explains(settings, input, direction, Locate(settings, input, direction).error)
  {
    if BackendForInput(settings, input).Success? {
      var backend := BackendForInput(settings, input).value;
      assert Chosen(settings, input, backend);
      if MapLocation(settings, backend, input).Success? {
        assert Denotes(settings, input, MapLocation(settings, backend, input).value, backend);
      }
    }
  }

  /** A pattern's location, checked against the backend that mapped it when there is one. */
  function LocatePattern(settings: Settings, url: Url, mapper: Option<nat>): (located: Result<(Url, nat), StorageError>)
    requires Routed(settings) && (mapper.Some? ==> mapper.value < |settings.backends|)
    ensures located.Success? ==> Owns(settings, located.value.1, located.value.0.scheme)
  {
    match mapper
    case Some(backend) =>
      if !Owns(settings, backend, url.scheme) then
        Failure(BarePatternSchemeMismatch(settings.backends[backend].name, url.scheme))
      else Success((url, backend))
    case None =>
      if url.scheme in settings.routing.byScheme then Success((url, settings.routing.byScheme[url.scheme]))
      else Failure(UnsupportedScheme(url.scheme))
  }

  /** A pattern is located exactly when the backend that mapped it, or any backend if none did, owns its
    * scheme; the backend it is located at is that one. */
  lemma LocatePatternExactly(settings: Settings, url: Url, mapper: Option<nat>)
    requires Routed(settings) && (mapper.Some? ==> mapper.value < |settings.backends|)
    ensures forall location, backend ::
              LocatePattern(settings, url, mapper) == Success((location, backend)) <==>
              location == url && Owns(settings, backend, url.scheme) && (mapper.Some? ==> mapper.value == backend)
    ensures var located := LocatePattern(settings, url, mapper);
      located.Failure? ==>
        located.error ==
        if mapper.Some? then BarePatternSchemeMismatch(settings.backends[mapper.value].name, url.scheme)
        else UnsupportedScheme(url.scheme)
  {
  }

  // ---------- the cache ----------

  type Cache = map<Url, Client>

  function NewClient(settings: Settings, backend: nat, store: Url): Client
    requires backend < |settings.backends|
  {
    Client(backend, store, if settings.backends[backend].sharedRetries then settings.retry else None)
  }

  datatype Opened = Opened(result: Result<Handle, StorageError>, cache: Cache, created: seq<Client>)

  /** A handle for a location: the cached client, or one built now, which may fail. */
  function Open(
    settings: Settings, cache: Cache, url: Url, backend: nat, direction: Direction, buildable: bool): Opened
    requires backend < |settings.backends|
  {
    var binding := settings.backends[backend];
    var store := StoreUrl(url);
    if !binding.Supports(direction) then Opened(Failure(DirectionUnsupported(binding.name, direction)), cache, [])
    else if !binding.accepts(url) then Opened(Failure(LocationValidation(binding.name, url)), cache, [])
    else
      match settings.objectPath(url.path)
      case None => Opened(Failure(InvalidObjectPath(url)), cache, [])
      case Some(path) =>
        if store in cache then Opened(Success(Handle(url, cache[store], path, store)), cache, [])
        else if !buildable then Opened(Failure(ObjectStoreCreation(binding.name, store)), cache, [])
        else
          var client := NewClient(settings, backend, store);
          Opened(Success(Handle(url, client, path, store)), cache[store := client], [client])
  }

  /** Every cached client serves its own store and was built by the backend that owns its
    * scheme, with the retries that backend asked for. */
  predicate CacheIsRouted(settings: Settings, cache: Cache) {
    forall store :: store in cache ==>
      && store == StoreUrl(store)
      && store.scheme in settings.routing.byScheme
      && settings.routing.byScheme[store.scheme] < |settings.backends|
      && cache[store] == NewClient(settings, settings.routing.byScheme[store.scheme], store)
  }

  lemma OpenKeepsCacheRouted(
    settings: Settings, cache: Cache, url: Url, backend: nat, direction: Direction, buildable: bool)
    requires Routed(settings) && CacheIsRouted(settings, cache) && Owns(settings, backend, url.scheme)
    ensures CacheIsRouted(settings, Open(settings, cache, url, backend, direction, buildable).cache)
  {
  }

  /** A session that has cached nothing would build the very same handle, and a failure leaves
    * the cache as it was. */
  lemma CachingIsInvisible(
    settings: Settings, cache: Cache, url: Url, backend: nat, direction: Direction, buildable: bool)
    requires Routed(settings) && CacheIsRouted(settings, cache) && Owns(settings, backend, url.scheme)
    ensures var opening := Open(settings, cache, url, backend, direction, buildable);
      && (opening.result.Success? ==> opening.result == Open(settings, map[], url, backend, direction, true).result)
      && (opening.result.Failure? ==> opening.cache == cache && opening.created == [])
      && (opening.result.Failure? && !opening.result.error.ObjectStoreCreation? ==>
            opening.result == Open(settings, map[], url, backend, direction, true).result)
  {
  }

  // ---------- the session ----------

  datatype Identity = Identity(store: Url, objectPath: string)

  function Identify(handle: Handle): Identity {
    Identity(handle.store, handle.objectPath)
  }

  datatype Existence = Absent | Present | Unknown

  /** What the world answers during one preparation. */
  datatype World = World(buildable: bool, existence: Existence, prepares: bool)

  class Session {
    const settings: Settings
    var cache: Cache
    var claims: set<Identity>

    constructor (settings: Settings)
      ensures this.settings == settings && cache == map[] && claims == {}
    {
      this.settings := settings;
      cache := map[];
      claims := {};
    }

    method CreateHandleForLocation(url: Url, backend: nat, direction: Direction, buildable: bool)
      returns (result: Result<Handle, StorageError>)
      requires backend < |settings.backends|
      modifies this`cache
      ensures var opening := Open(settings, old(cache), url, backend, direction, buildable);
        result == opening.result && cache == opening.cache
    {
      var binding := settings.backends[backend];
      if !binding.Supports(direction) {
        return Failure(DirectionUnsupported(binding.name, direction));
      }
      if !binding.accepts(url) {
        return Failure(LocationValidation(binding.name, url));
      }
      var path := settings.objectPath(url.path);
      if path.None? {
        return Failure(InvalidObjectPath(url));
      }
      var store := StoreUrl(url);
      if store !in cache {
        if !buildable {
          return Failure(ObjectStoreCreation(binding.name, store));
        }
        cache := cache[store := NewClient(settings, backend, store)];
      }
      result := Success(Handle(url, cache[store], path.value, store));
    }

    method CreateHandle(input: LocationInput, direction: Direction, buildable: bool)
      returns (result: Result<Handle, StorageError>)
      requires Routed(settings)
      modifies this`cache
      ensures var opening := OpenInput(settings, old(cache), input, direction, buildable);
        result == opening.result && cache == opening.cache
    {
      var located := Locate(settings, input, direction);
      if located.Failure? {
        return Failure(located.error);
      }
      result := CreateHandleForLocation(located.value.0, located.value.1, direction, buildable);
    }

    /** Resolves, claims, checks and prepares one output.  The claim stays even when a later
      * step fails. */
    method PrepareOutputTarget(input: LocationInput, rejectExisting: bool, world: World)
      returns (result: Result<Handle, StorageError>)
      requires Routed(settings)
      modifies this
      ensures var opening := OpenInput(settings, old(cache), input, Output, world.buildable);
        && cache == opening.cache
        && (opening.result.Failure? ==> result == opening.result && claims == old(claims))
        && (opening.result.Success? ==>
              var handle := opening.result.value;
              && claims == old(claims) + {Identify(handle)}
              && (result.Success? <==> Clear(Identify(handle) in old(claims), rejectExisting, world))
              && (result.Success? ==> result.value == handle)
              && (result.Failure? ==>
                    && result.error == WhyRefused(settings, old(claims), handle, rejectExisting, world)
                    && RefusedBecause(settings, Identify(handle) in old(claims), handle, rejectExisting, world,
                                      result.error)))
    {
      var opening := CreateHandle(input, Output, world.buildable);
      if opening.Failure? {
        return Failure(opening.error);
      }
      var handle := opening.value;
      OpenInputOwns(settings, old(cache), input, Output, world.buildable);
      if Identify(handle) in claims {
        return Failure(OutputTargetAlreadyClaimed(handle.url));
      }
      claims := claims + {Identify(handle)};
      if rejectExisting {
        match world.existence {
          case Present => return Failure(OutputTargetAlreadyExists(handle.url));
          case Absent =>
          case Unknown => return Failure(ExistenceCheck(handle.url));
        }
      }
      if handle.url.scheme !in settings.routing.byScheme {
        return Failure(UnsupportedScheme(handle.url.scheme));
      }
      if !world.prepares {
        var backend := settings.routing.byScheme[handle.url.scheme];
        return Failure(OutputTargetPreparation(settings.backends[backend].name, handle.url));
      }
      result := Success(handle);
    }
  }

  /** What a refusal after the target is resolved says: that another output has claimed it; else, when existing
    * objects are rejected, that it exists or that nobody knows; else that its scheme's owner could not prepare it. */
  predicate RefusedBecause(
    settings: Settings, claimed: bool, handle: Handle, rejectExisting: bool, world: World, error: StorageError)
    requires Routed(settings)
  {
    match error
    case OutputTargetAlreadyClaimed(target) => claimed && target == handle.url
    case OutputTargetAlreadyExists(target) =>
      !claimed && target == handle.url && rejectExisting && world.existence.Present?
    case ExistenceCheck(target) => !claimed && target == handle.url && rejectExisting && world.existence.Unknown?
    case OutputTargetPreparation(name, target) =>
      && !claimed && target == handle.url && (rejectExisting ==> world.existence.Absent?) && !world.prepares
      && handle.url.scheme in settings.routing.byScheme
      && name == settings.backends[settings.routing.byScheme[handle.url.scheme]].name
    case _ => false
  }

  /** Nothing stands in the way of the preparation. */
  predicate Clear(claimed: bool, rejectExisting: bool, world: World) {
    !claimed && (rejectExisting ==> world.existence.Absent?) && world.prepares
  }

  /** The first of the checks that a preparation can fail once its target is resolved. */
  function WhyRefused(
    settings: Settings, claims: set<Identity>, handle: Handle, rejectExisting: bool, world: World): StorageError
    requires Routed(settings)
  {
    if Identify(handle) in claims then OutputTargetAlreadyClaimed(handle.url)
    else if rejectExisting && world.existence.Present? then OutputTargetAlreadyExists(handle.url)
    else if rejectExisting && world.existence.Unknown? then ExistenceCheck(handle.url)
    else OutputTargetPreparation(Preparer(settings, handle), handle.url)
  }

  function OpenInput(
    settings: Settings, cache: Cache, input: LocationInput, direction: Direction, buildable: bool): Opened
    requires Routed(settings)
  {
    match Locate(settings, input, direction)
    case Failure(error) => Opened(Failure(error), cache, [])
    case Success((url, backend)) => Open(settings, cache, url, backend, direction, buildable)
  }

  /** Everything a handle needs but its client: a place, a backend that accepts the URL, and an object path. */
  predicate Reachable(settings: Settings, input: LocationInput, direction: Direction, url: Url, backend: nat)
    requires Routed(settings)
  {
    Serves(settings, input, direction, url, backend)
    && settings.backends[backend].accepts(url)
    && settings.objectPath(url.path).Some?
  }

  /** What stops a location that was found. */
  predicate Stops(settings: Settings, cache: Cache, url: Url, backend: nat, error: StorageError)
    requires backend < |settings.backends|
  {
    match error
    case LocationValidation(name, location) =>
      && name == settings.backends[backend].name && location == url && !settings.backends[backend].accepts(url)
    case InvalidObjectPath(location) =>
      && location == url && settings.backends[backend].accepts(url) && settings.objectPath(url.path).None?
    case ObjectStoreCreation(name, store) =>
      && name == settings.backends[backend].name && settings.backends[backend].accepts(url)
      && settings.objectPath(url.path).Some?
      && SameStore(store, url) && store == StoreUrl(store) && store !in cache
    case _ => false
  }

  /**
   A handle exists exactly for a location that is found, whose URL its backend accepts and whose path is an
   object path, when a client for its store is cached or can be built. Otherwise the error explains why it was
   not found, or what stopped it.
   */
  lemma OpenInputExactly(settings: Settings, cache: Cache, input: LocationInput, direction: Direction, buildable: bool)
    requires Routed(settings)
    ensures var opening := OpenInput(settings, cache, input, direction, buildable);
      && (opening.result.Success? <==>
            exists url, backend: nat ::
              Reachable(settings, input, direction, url, backend) && (buildable || StoreUrl(url) in cache))
      && (opening.result.Success? ==>
            exists backend: nat :: Reachable(settings, input, direction, opening.result.value.url, backend))
      && (opening.result.Failure? ==>
            || Explains(settings, input, direction, opening.result.error)
            || (exists url, backend: nat ::
                  && Serves(settings, input, direction, url, backend)
                  && Stops(settings, cache, url, backend, opening.result.error)
                  && (opening.result.error.ObjectStoreCreation? ==> !buildable)))
  {
    LocateExactly(settings, input, direction);
    if Locate(settings, input, direction).Success? {
      var (url, backend) := Locate(settings, input, direction).value;
      assert Serves(settings, input, direction, url, backend);
      StoreIsSchemeAndAuthority(url, url);
      forall u, b: nat | Serves(settings, input, direction, u, b) ensures u == url && b == backend {
        assert Locate(settings, input, direction) == Success((u, b));
      }
      if OpenInput(settings, cache, input, direction, buildable).result.Success? {
        assert Reachable(settings, input, direction, url, backend);
      } else {
        assert Stops(settings, cache, url, backend,
                     OpenInput(settings, cache, input, direction, buildable).result.error);
      }
    }
  }

  lemma OpenInputOwns(settings: Settings, cache: Cache, input: LocationInput, direction: Direction, buildable: bool)
    requires Routed(settings)
    ensures var opening := OpenInput(settings, cache, input, direction, buildable);
      opening.result.Success? ==> opening.result.value.url.scheme in settings.routing.byScheme
  {
  }

  // ---------- any interleaving of calls ----------

  /** Where one call of `PrepareOutputTarget` is.  Each step is one section under a lock or one
    * request; other calls may run in between. */
  datatype Phase =
    | Starting
    | Resolved(handle: Handle)
    | Claimed(handle: Handle)
    | Checked(handle: Handle)
    | Prepared(handle: Handle)
    | Refused(error: StorageError)

  datatype Call = Call(input: LocationInput, rejectExisting: bool, phase: Phase)

  datatype State = State(cache: Cache, created: seq<Client>, claims: set<Identity>, calls: seq<Call>)

  datatype Action =
    | OpenHandle(input: LocationInput, direction: Direction, buildable: bool)
    | OpenPattern(pattern: Url, mapper: Option<nat>, buildable: bool)
    | Begin(input: LocationInput, rejectExisting: bool)
    | Advance(call: nat, world: World)

  const FRESH := State(map[], [], {}, [])

  predicate Enabled(settings: Settings, st: State, action: Action) {
    match action
    case OpenPattern(_, mapper, _) => mapper.Some? ==> mapper.value < |settings.backends|
    case Advance(i, _) => i < |st.calls| && !st.calls[i].phase.Prepared? && !st.calls[i].phase.Refused?
    case _ => true
  }

  function Keep(st: State, opening: Opened): State {
    st.(cache := opening.cache, created := st.created + opening.created)
  }

  function Move(st: State, i: nat, phase: Phase): State
    requires i < |st.calls|
  {
    st.(calls := st.calls[i := st.calls[i].(phase := phase)])
  }

  function Step(settings: Settings, st: State, action: Action): State
    requires Routed(settings) && Enabled(settings, st, action)
  {
    match action
    case OpenHandle(input, direction, buildable) =>
      Keep(st, OpenInput(settings, st.cache, input, direction, buildable))
    case OpenPattern(url, mapper, buildable) => Keep(st, OpenListing(settings, st.cache, url, mapper, buildable))
    case Begin(input, rejectExisting) => st.(calls := st.calls + [Call(input, rejectExisting, Starting)])
    case Advance(i, world) => AdvanceCall(settings, st, i, world)
  }

  function OpenListing(settings: Settings, cache: Cache, url: Url, mapper: Option<nat>, buildable: bool): Opened
    requires Routed(settings) && (mapper.Some? ==> mapper.value < |settings.backends|)
  {
    match LocatePattern(settings, url, mapper)
    case Failure(error) => Opened(Failure(error), cache, [])
    case Success((location, backend)) => Open(settings, cache, location, backend, Input, buildable)
  }

  function AdvanceCall(settings: Settings, st: State, i: nat, world: World): State
    requires Routed(settings) && Enabled(settings, st, Advance(i, world))
  {
    var call := st.calls[i];
    match call.phase
    case Starting =>
      var opening := OpenInput(settings, st.cache, call.input, Output, world.buildable);
      Move(Keep(st, opening), i,
           if opening.result.Success? then Resolved(opening.result.value) else Refused(opening.result.error))
    case Resolved(handle) =>
      if Identify(handle) in st.claims then Move(st, i, Refused(OutputTargetAlreadyClaimed(handle.url)))
      else Move(st.(claims := st.claims + {Identify(handle)}), i, Claimed(handle))
    case Claimed(handle) =>
      if !call.rejectExisting || world.existence.Absent? then Move(st, i, Checked(handle))
      else Move(st, i, Refused(if world.existence.Present? then OutputTargetAlreadyExists(handle.url)
                               else ExistenceCheck(handle.url)))
    case Checked(handle) =>
      Move(st, i, if world.prepares then Prepared(handle)
                  else Refused(OutputTargetPreparation(Preparer(settings, handle), handle.url)))
    case _ => st
  }

  function Preparer(settings: Settings, handle: Handle): string
    requires Routed(settings)
  {
    if handle.url.scheme in settings.routing.byScheme
    then settings.backends[settings.routing.byScheme[handle.url.scheme]].name else ""
  }

  predicate Possible(settings: Settings, st: State, run: seq<Action>)
    requires Routed(settings)
    decreases |run|
  {
    run == [] || (Enabled(settings, st, run[0]) && Possible(settings, Step(settings, st, run[0]), run[1..]))
  }

  function After(settings: Settings, st: State, run: seq<Action>): State
    requires Routed(settings) && Possible(settings, st, run)
    decreases |run|
  {
    if run == [] then st else After(settings, Step(settings, st, run[0]), run[1..])
  }

  predicate HoldsClaim(phase: Phase) {
    phase.Claimed? || phase.Checked? || phase.Prepared?
  }

  predicate HasHandle(phase: Phase) {
    phase.Resolved? || HoldsClaim(phase)
  }

  predicate CallIsSound(settings: Settings, st: State, i: nat)
    requires Routed(settings) && i < |st.calls|
  {
    var call := st.calls[i];
    && (HoldsClaim(call.phase) ==> Identify(call.phase.handle) in st.claims)
    && (HasHandle(call.phase) ==>
          Success(call.phase.handle) == OpenInput(settings, map[], call.input, Output, true).result)
  }

  predicate Inv(settings: Settings, st: State)
    requires Routed(settings)
  {
    && CacheIsRouted(settings, st.cache)
    && (forall i :: 0 <= i < |st.created| ==>
          st.created[i].store in st.cache && st.cache[st.created[i].store] == st.created[i])
    && (forall i, j :: 0 <= i < j < |st.created| ==> st.created[i].store != st.created[j].store)
    && (forall i :: 0 <= i < |st.calls| ==> CallIsSound(settings, st, i))
    && (forall i, j :: 0 <= i < j < |st.calls| && HoldsClaim(st.calls[i].phase) && HoldsClaim(st.calls[j].phase) ==>
          Identify(st.calls[i].phase.handle) != Identify(st.calls[j].phase.handle))
  }

  lemma OpenBuildsOnce(settings: Settings, cache: Cache, url: Url, backend: nat, direction: Direction, buildable: bool)
    requires backend < |settings.backends|
    ensures var opening := Open(settings, cache, url, backend, direction, buildable);
      && (forall store :: store in cache ==> store in opening.cache && opening.cache[store] == cache[store])
      && (opening.created == [] ==> opening.cache == cache)
      && (opening.created != [] ==>
            && |opening.created| == 1
            && opening.created[0].store !in cache
            && opening.cache == cache[opening.created[0].store := opening.created[0]])
  {
  }

  lemma KeepKeepsAll(settings: Settings, st: State, url: Url, backend: nat, direction: Direction, buildable: bool)
    requires Routed(settings) && Inv(settings, st) && Owns(settings, backend, url.scheme)
    ensures Inv(settings, Keep(st, Open(settings, st.cache, url, backend, direction, buildable)))
  {
    OpenBuildsOnce(settings, st.cache, url, backend, direction, buildable);
    OpenKeepsCacheRouted(settings, st.cache, url, backend, direction, buildable);
    var st' := Keep(st, Open(settings, st.cache, url, backend, direction, buildable));
    forall i | 0 <= i < |st'.calls| ensures CallIsSound(settings, st', i) {
      assert CallIsSound(settings, st, i);
    }
  }

  lemma KeepInputKeepsAll(settings: Settings, st: State, input: LocationInput, direction: Direction, buildable: bool)
    requires Routed(settings) && Inv(settings, st)
    ensures Inv(settings, Keep(st, OpenInput(settings, st.cache, input, direction, buildable)))
  {
    match Locate(settings, input, direction)
    case Success((url, backend)) => KeepKeepsAll(settings, st, url, backend, direction, buildable);
    case Failure(_) => KeepNothing(settings, st);
  }

  lemma KeepNothing(settings: Settings, st: State)
    requires Routed(settings) && Inv(settings, st)
    ensures forall result :: Keep(st, Opened(result, st.cache, [])) == st
  {
    assert st.created + [] == st.created;
  }

  lemma MoveKeepsAll(settings: Settings, st: State, i: nat, phase: Phase)
    requires Routed(settings) && Inv(settings, st) && i < |st.calls|
    requires HasHandle(phase) ==>
      Success(phase.handle) == OpenInput(settings, map[], st.calls[i].input, Output, true).result
    requires HoldsClaim(phase) ==>
      && Identify(phase.handle) in st.claims
      && forall j :: 0 <= j < |st.calls| && j != i && HoldsClaim(st.calls[j].phase) ==>
           Identify(st.calls[j].phase.handle) != Identify(phase.handle)
    ensures Inv(settings, Move(st, i, phase))
  {
    var st' := Move(st, i, phase);
    forall j | 0 <= j < |st'.calls| ensures CallIsSound(settings, st', j) {
      assert CallIsSound(settings, st, j);
    }
  }

  lemma OpenedAsUncached(settings: Settings, st: State, input: LocationInput, buildable: bool)
    requires Routed(settings) && Inv(settings, st)
    ensures var opening := OpenInput(settings, st.cache, input, Output, buildable);
      opening.result.Success? ==> opening.result == OpenInput(settings, map[], input, Output, true).result
  {
    match Locate(settings, input, Output)
    case Success((url, backend)) => CachingIsInvisible(settings, st.cache, url, backend, Output, buildable);
    case Failure(_) =>
  }

  lemma ClaimKeepsAll(settings: Settings, st: State, i: nat, handle: Handle)
    requires Routed(settings) && Inv(settings, st) && i < |st.calls|
    requires st.calls[i].phase == Resolved(handle) && Identify(handle) !in st.claims
    ensures Inv(settings, Move(st.(claims := st.claims + {Identify(handle)}), i, Claimed(handle)))
  {
    var more := st.(claims := st.claims + {Identify(handle)});
    assert CallIsSound(settings, st, i);
    forall j | 0 <= j < |st.calls| ensures CallIsSound(settings, more, j) {
      assert CallIsSound(settings, st, j);
    }
    forall j | 0 <= j < |st.calls| && j != i && HoldsClaim(st.calls[j].phase)
      ensures Identify(st.calls[j].phase.handle) != Identify(handle)
    {
      assert CallIsSound(settings, st, j);
    }
    MoveKeepsAll(settings, more, i, Claimed(handle));
  }

  lemma StartKeepsAll(settings: Settings, st: State, i: nat, world: World)
    requires Routed(settings) && Inv(settings, st) && i < |st.calls| && st.calls[i].phase.Starting?
    ensures Inv(settings, AdvanceCall(settings, st, i, world))
  {
    var call := st.calls[i];
    var opening := OpenInput(settings, st.cache, call.input, Output, world.buildable);
    KeepInputKeepsAll(settings, st, call.input, Output, world.buildable);
    OpenedAsUncached(settings, st, call.input, world.buildable);
    MoveKeepsAll(settings, Keep(st, opening), i,
      if opening.result.Success? then Resolved(opening.result.value) else Refused(opening.result.error));
  }

  lemma AdvanceKeepsAll(settings: Settings, st: State, i: nat, world: World)
    requires Routed(settings) && Inv(settings, st) && Enabled(settings, st, Advance(i, world))
    ensures Inv(settings, AdvanceCall(settings, st, i, world))
  {
    var call := st.calls[i];
    assert CallIsSound(settings, st, i);
    match call.phase
    case Starting => StartKeepsAll(settings, st, i, world);
    case Resolved(handle) =>
      if Identify(handle) in st.claims {
        MoveKeepsAll(settings, st, i, Refused(OutputTargetAlreadyClaimed(handle.url)));
      } else {
        ClaimKeepsAll(settings, st, i, handle);
      }
    case Claimed(handle) =>
      MoveKeepsAll(settings, st, i, Checked(handle));
      MoveKeepsAll(settings, st, i, Refused(OutputTargetAlreadyExists(handle.url)));
      MoveKeepsAll(settings, st, i, Refused(ExistenceCheck(handle.url)));
    case Checked(handle) =>
      MoveKeepsAll(settings, st, i, Prepared(handle));
      MoveKeepsAll(settings, st, i, Refused(OutputTargetPreparation(Preparer(settings, handle), handle.url)));
    case _ =>
  }

  lemma StepKeepsAll(settings: Settings, st: State, action: Action)
    requires Routed(settings) && Inv(settings, st) && Enabled(settings, st, action)
    ensures Inv(settings, Step(settings, st, action))
  {
    match action
    case OpenHandle(input, direction, buildable) => KeepInputKeepsAll(settings, st, input, direction, buildable);
    case OpenPattern(pattern, mapper, buildable) =>
      KeepNothing(settings, st);
      if LocatePattern(settings, pattern, mapper).Success? {
        var (url, backend) := LocatePattern(settings, pattern, mapper).value;
        KeepKeepsAll(settings, st, url, backend, Input, buildable);
      }
    case Begin(input, rejectExisting) =>
      var st' := Step(settings, st, action);
      forall j | 0 <= j < |st'.calls| ensures CallIsSound(settings, st', j) {
        assert j < |st.calls| ==> CallIsSound(settings, st, j);
      }
    case Advance(i, world) => AdvanceKeepsAll(settings, st, i, world);
  }

  lemma {:induction false} RunKeepsAll(settings: Settings, st: State, run: seq<Action>)
    requires Routed(settings) && Inv(settings, st) && Possible(settings, st, run)
    ensures Inv(settings, After(settings, st, run))
    decreases |run|
  {
    if run != [] {
      StepKeepsAll(settings, st, run[0]);
      RunKeepsAll(settings, Step(settings, st, run[0]), run[1..]);
    }
  }

  lemma CreatedForDifferentStores(settings: Settings, st: State, i: nat, j: nat)
    requires Routed(settings) && Inv(settings, st) && i < j < |st.created|
    ensures !SameStore(st.created[i].store, st.created[j].store)
  {
    StoreIsSchemeAndAuthority(st.created[i].store, st.created[j].store);
  }

  predicate BothPrepared(st: State, i: nat, j: nat)
    requires i < |st.calls| && j < |st.calls|
  {
    st.calls[i].phase.Prepared? && st.calls[j].phase.Prepared?
  }

  lemma PreparedApart(settings: Settings, st: State, i: nat, j: nat)
    requires Routed(settings) && Inv(settings, st) && i < j < |st.calls|
    requires st.calls[i].phase.Prepared? && st.calls[j].phase.Prepared?
    requires SameStore(st.calls[i].phase.handle.url, st.calls[j].phase.handle.url)
    ensures st.calls[i].phase.handle.objectPath != st.calls[j].phase.handle.objectPath
    ensures st.calls[i].phase.handle.client == st.calls[j].phase.handle.client
  {
    assert CallIsSound(settings, st, i) && CallIsSound(settings, st, j);
    HandleIsOfItsUrl(settings, st.calls[i].input);
    HandleIsOfItsUrl(settings, st.calls[j].input);
    StoreIsSchemeAndAuthority(st.calls[i].phase.handle.url, st.calls[j].phase.handle.url);
  }

  /** A handle serves the object its URL's path names, in the store of its URL, through the client the owner
    * of the scheme built for that store. */
  lemma HandleIsOfItsUrl(settings: Settings, input: LocationInput)
    requires Routed(settings)
    ensures var opening := OpenInput(settings, map[], input, Output, true).result;
      opening.Success? ==>
        var url := opening.value.url;
        && Denotes(settings, input, url, opening.value.client.backend)
        && Owns(settings, opening.value.client.backend, url.scheme)
        && Some(opening.value.objectPath) == settings.objectPath(url.path)
        && opening.value.store == StoreUrl(url)
        && opening.value.client == NewClient(settings, settings.routing.byScheme[url.scheme], StoreUrl(url))
        && SameStore(opening.value.client.store, url)
        && opening.value.client.retry ==
           (if settings.backends[opening.value.client.backend].sharedRetries then settings.retry else None)
  {
    LocateExactly(settings, input, Output);
  }

  /** Over every interleaving of calls on one session: two successful preparations never share an
    * object, so under one scheme and authority their paths differ whatever their queries are, and there they
    * share one client; no scheme and authority ever has two clients, each is built by the backend that
    * owns the scheme, and every prepared handle is the one an uncached session would have built. */
  lemma EveryInterleavingIsSafe(settings: Settings, run: seq<Action>)
    requires Routed(settings) && Possible(settings, FRESH, run)
    ensures var st := After(settings, FRESH, run);
      && CacheIsRouted(settings, st.cache)
      && (forall i, j :: 0 <= i < j < |st.created| ==> !SameStore(st.created[i].store, st.created[j].store))
      && (forall i, j :: 0 <= i < j < |st.calls| && BothPrepared(st, i, j) ==>
            Identify(st.calls[i].phase.handle) != Identify(st.calls[j].phase.handle))
      && (forall i, j :: 0 <= i < j < |st.calls| && BothPrepared(st, i, j) ==>
            SameStore(st.calls[i].phase.handle.url, st.calls[j].phase.handle.url) ==>
              && st.calls[i].phase.handle.objectPath != st.calls[j].phase.handle.objectPath
              && st.calls[i].phase.handle.client == st.calls[j].phase.handle.client)
      && (forall i :: 0 <= i < |st.calls| && st.calls[i].phase.Prepared? ==>
            Success(st.calls[i].phase.handle) == OpenInput(settings, map[], st.calls[i].input, Output, true).result)
  {
    RunKeepsAll(settings, FRESH, run);
    var st := After(settings, FRESH, run);
    forall i, j | 0 <= i < j < |st.created| ensures !SameStore(st.created[i].store, st.created[j].store) {
      CreatedForDifferentStores(settings, st, i, j);
    }
    forall i, j | 0 <= i < j < |st.calls| && BothPrepared(st, i, j)
                  && SameStore(st.calls[i].phase.handle.url, st.calls[j].phase.handle.url)
      ensures st.calls[i].phase.handle.objectPath != st.calls[j].phase.handle.objectPath
      ensures st.calls[i].phase.handle.client == st.calls[j].phase.handle.client
    {
      PreparedApart(settings, st, i, j);
    }
    forall i | 0 <= i < |st.calls| && st.calls[i].phase.Prepared?
      ensures Success(st.calls[i].phase.handle) == OpenInput(settings, map[], st.calls[i].input, Output, true).result
    {
      assert CallIsSound(settings, st, i);
    }
  }

  /** A call taken through all its steps with nothing in between. */
  function Alone(settings: Settings, st: State, i: nat, world: World, steps: nat): State
    requires Routed(settings) && i < |st.calls|
    decreases steps
  {
    if steps == 0 || !Enabled(settings, st, Advance(i, world)) then st
    else Alone(settings, AdvanceCall(settings, st, i, world), i, world, steps - 1)
  }

  /**
   Left alone, a call of the interleaved session does what the sequential method does: it is refused if its
   target cannot be opened; it claims the target otherwise; and it is prepared exactly when nobody had claimed
   the target, nothing stands in its way and the backend can prepare it, and refused for the reason there is.
   */
  lemma AloneExactly(settings: Settings, st: State, i: nat, world: World)
    requires Routed(settings) && i < |st.calls| && st.calls[i].phase.Starting?
    ensures var opening := OpenInput(settings, st.cache, st.calls[i].input, Output, world.buildable);
      var end := Alone(settings, st, i, world, 4);
      && i < |end.calls| && end.cache == opening.cache && end.created == st.created + opening.created
      && (opening.result.Failure? ==>
            end.calls[i].phase == Refused(opening.result.error) && end.claims == st.claims)
      && (opening.result.Success? ==>
            var handle := opening.result.value;
            && end.claims == st.claims + {Identify(handle)}
            && (end.calls[i].phase == Prepared(handle) <==>
                Clear(Identify(handle) in st.claims, st.calls[i].rejectExisting, world))
            && (!Clear(Identify(handle) in st.claims, st.calls[i].rejectExisting, world) ==>
                  && end.calls[i].phase.Refused?
                  && RefusedBecause(settings, Identify(handle) in st.claims, handle, st.calls[i].rejectExisting, world,
                                    end.calls[i].phase.error)))
  {
    var opening := OpenInput(settings, st.cache, st.calls[i].input, Output, world.buildable);
    OpenInputOwns(settings, st.cache, st.calls[i].input, Output, world.buildable);
    var first := AdvanceCall(settings, st, i, world);
    assert Alone(settings, st, i, world, 4) == Alone(settings, first, i, world, 3);
    if opening.result.Success? {
      AloneFromResolved(settings, first, i, world);
    }
  }

  lemma AloneFromResolved(settings: Settings, st: State, i: nat, world: World)
    requires Routed(settings) && i < |st.calls| && st.calls[i].phase.Resolved?
    requires st.calls[i].phase.handle.url.scheme in settings.routing.byScheme
    ensures var handle := st.calls[i].phase.handle;
      var end := Alone(settings, st, i, world, 3);
      && i < |end.calls| && end.cache == st.cache && end.created == st.created
      && end.claims == st.claims + {Identify(handle)}
      && (end.calls[i].phase == Prepared(handle)
          || (end.calls[i].phase.Refused?
              && RefusedBecause(settings, Identify(handle) in st.claims, handle, st.calls[i].rejectExisting, world,
                                end.calls[i].phase.error)))
      && (end.calls[i].phase.Prepared? <==>
          Clear(Identify(handle) in st.claims, st.calls[i].rejectExisting, world))
  {
    var claimed := AdvanceCall(settings, st, i, world);
    assert Alone(settings, st, i, world, 3) == Alone(settings, claimed, i, world, 2);
    if claimed.calls[i].phase.Claimed? {
      var checked := AdvanceCall(settings, claimed, i, world);
      assert Alone(settings, claimed, i, world, 2) == Alone(settings, checked, i, world, 1);
      if checked.calls[i].phase.Checked? {
        assert Alone(settings, checked, i, world, 1)
            == Alone(settings, AdvanceCall(settings, checked, i, world), i, world, 0);
      }
    }
  }

  predicate TargetsClaimed(phase: Phase, claims: set<Identity>) {
    phase.Resolved? && Identify(phase.handle) in claims
  }

  /** Claims and cached clients are never given up: whatever happens later, a claimed object
    * stays claimed, so every other call that resolves to it is refused. */
  lemma {:induction false} ClaimsOnlyGrow(settings: Settings, st: State, run: seq<Action>)
    requires Routed(settings) && Possible(settings, st, run)
    ensures var end := After(settings, st, run);
      && st.claims <= end.claims
      && (forall store :: store in st.cache ==> store in end.cache && end.cache[store] == st.cache[store])
      && (forall i, world :: (0 <= i < |end.calls| && TargetsClaimed(end.calls[i].phase, st.claims)) ==>
            AdvanceCall(settings, end, i, world).calls[i].phase
              == Refused(OutputTargetAlreadyClaimed(end.calls[i].phase.handle.url)))
    decreases |run|
  {
    if run != [] {
      StepOnlyGrows(settings, st, run[0]);
      ClaimsOnlyGrow(settings, Step(settings, st, run[0]), run[1..]);
    }
  }

  lemma StepOnlyGrows(settings: Settings, st: State, action: Action)
    requires Routed(settings) && Enabled(settings, st, action)
    ensures var next := Step(settings, st, action);
      && st.claims <= next.claims
      && (forall store :: store in st.cache ==> store in next.cache && next.cache[store] == st.cache[store])
  {
  }

}
