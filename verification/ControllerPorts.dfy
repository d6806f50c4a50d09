/** Which controller holds which port: what SDL assigns, what the user has configured, and what is
    left over. */
module ControllerPorts {
  import opened Wrappers

  const PORTS := 4
  const NO_PORT := -1

  /** A device, by its GUID, the vendor and product that the GUID encodes, and its serial number. */
  datatype Identity = Identity(guid: string, vendor: nat, product: nat, serial: string)

  datatype PreferenceState = Unset | Nobody | Device

  datatype Preference = Preference(state: PreferenceState, identity: Identity)

  datatype Match = NoMatch | Fallback | Exact

  /** `sdlIndex` is what SDL answers, and `cachedIndex` the copy kept for devices whose index SDL
      has forgotten. */
  datatype Controller = Controller(identity: Identity, sdlIndex: int, cachedIndex: int)
  {
    function PlayerIndex(): int {
      if sdlIndex >= 0 then sdlIndex else cachedIndex
    }
  }

  type Instance = nat
  type Controllers = map<Instance, Controller>
  type Preferences = s: seq<Preference> | |s| == PORTS
    witness seq(PORTS, _ => Preference(Unset, Identity("", 0, 0, "")))

  function EveryPort(state: PreferenceState, identity: Identity): Preferences {
    seq(PORTS, _ => Preference(state, identity))
  }

  function Normalized(serial: string): string {
    if serial == "" then ""
    else if serial[0] == ':' || serial[0] == '-' then Normalized(serial[1..])
    else [if 'A' <= serial[0] <= 'Z' then (serial[0] as int - 'A' as int + 'a' as int) as char else serial[0]]
         + Normalized(serial[1..])
  }

  predicate SerialMatches(saved: string, current: string) {
    saved != "" && current != "" && Normalized(saved) == Normalized(current)
  }

  function IdentityMatch(saved: Identity, current: Identity): Match {
    if saved.guid == "" then NoMatch
    else if saved.guid == current.guid then
      if saved.serial == "" || SerialMatches(saved.serial, current.serial) then Exact else NoMatch
    else if !SerialMatches(saved.serial, current.serial) then NoMatch
    else if saved.vendor != 0 && saved.vendor == current.vendor && saved.product != 0 && saved.product == current.product
    then Fallback
    else NoMatch
  }

  lemma {:induction false} NormalizedConcat(a: string, b: string)
    ensures Normalized(a + b) == Normalized(a) + Normalized(b)
  {
    if a == "" {
      assert a + b == b;
    } else {
      assert (a + b)[1..] == a[1..] + b;
      NormalizedConcat(a[1..], b);
    }
  }

  /** A serial number as `normalize_serial` leaves it. */
  predicate IsPlain(serial: string) {
    forall c | c in serial :: c != ':' && c != '-' && !('A' <= c <= 'Z')
  }

  lemma {:induction false} PlainIsNormalized(serial: string)
    requires IsPlain(serial)
    ensures Normalized(serial) == serial
  {
    if serial != "" {
      assert serial[0] in serial && forall c | c in serial[1..] :: c in serial;
      PlainIsNormalized(serial[1..]);
    }
  }

  lemma NormalizedWithin(before: string, c: char, after: string)
    ensures Normalized(before + [c] + after) == Normalized(before) + Normalized([c]) + Normalized(after)
  {
    hide Normalized;
    NormalizedConcat(before, [c]);
    NormalizedConcat(before + [c], after);
  }

  lemma NormalizedCharacter(c: char)
    ensures c == ':' || c == '-' ==> Normalized([c]) == ""
    ensures 'a' <= c <= 'z' ==> Normalized([(c as int - 'a' as int + 'A' as int) as char]) == Normalized([c])
  {
    assert [c][1..] == "";
  }

  /** Colons, dashes and the case of a letter make no difference wherever they stand, and everything
      else does. */
  lemma SerialSpelling(before: string, c: char, after: string, a: string, b: string)
    ensures c == ':' || c == '-' ==> Normalized(before + [c] + after) == Normalized(before + after)
    ensures 'a' <= c <= 'z' ==>
              Normalized(before + [(c as int - 'a' as int + 'A' as int) as char] + after) == Normalized(before + [c] + after)
    ensures IsPlain(a) && IsPlain(b) ==> (SerialMatches(a, b) <==> a == b != "")
  {
    hide Normalized, IsPlain;
    NormalizedConcat(before, after);
    NormalizedCharacter(c);
    NormalizedWithin(before, c, after);
    if 'a' <= c <= 'z' {
      NormalizedWithin(before, (c as int - 'a' as int + 'A' as int) as char, after);
    }
    if IsPlain(a) && IsPlain(b) {
      PlainIsNormalized(a);
      PlainIsNormalized(b);
    }
  }

  /** An exact match has the saved GUID, and the saved serial number if one is saved. A fallback has
      another GUID, of the same known vendor and product, and needs the serial number. A device whose
      saved serial number differs never matches, and a device always matches itself. */
  lemma MatchMeaning(saved: Identity, current: Identity)
    ensures IdentityMatch(saved, current).Exact? <==>
            && current.guid == saved.guid != ""
            && (saved.serial == "" || SerialMatches(saved.serial, current.serial))
    ensures IdentityMatch(saved, current).Fallback? <==>
            && saved.guid != "" && current.guid != saved.guid && SerialMatches(saved.serial, current.serial)
            && current.vendor == saved.vendor > 0 && current.product == saved.product > 0
    ensures saved.serial != "" && Normalized(saved.serial) != Normalized(current.serial) ==>
              IdentityMatch(saved, current).NoMatch?
    ensures saved.guid != "" ==> IdentityMatch(saved, saved).Exact?
  {
  }

  predicate IsConfigured(preferences: Preferences, port: int) {
    0 <= port < PORTS && !preferences[port].state.Unset?
  }

  /** No two controllers hold one port. */
  ghost predicate NoSharing(controllers: Controllers) {
    forall a, b | a in controllers && b in controllers && a != b && controllers[a].PlayerIndex() >= 0 ::
      controllers[a].PlayerIndex() != controllers[b].PlayerIndex()
  }

  predicate IsFree(controllers: Controllers, port: int, except: Instance) {
    forall i | i in controllers && i != except :: controllers[i].PlayerIndex() != port
  }

  // ---- Claims ----

  /** The controllers that took the configured ports, port by port. */
  type Claims = seq<Option<Instance>>

  /** The best claim for a port, given those made before it. */
  ghost predicate IsBestClaim(controllers: Controllers, preference: Preference, before: Claims, claim: Option<Instance>) {
    if !preference.state.Device? then claim.None?
    else match claim
      case Some(i) =>
        && i in controllers && Some(i) !in before
        && !IdentityMatch(preference.identity, controllers[i].identity).NoMatch?
        && (IdentityMatch(preference.identity, controllers[i].identity).Fallback? ==>
              forall j | j in controllers && Some(j) !in before ::
                !IdentityMatch(preference.identity, controllers[j].identity).Exact?)
      case None =>
        forall j | j in controllers && Some(j) !in before :: IdentityMatch(preference.identity, controllers[j].identity).NoMatch?
  }

  ghost predicate AreBestClaims(controllers: Controllers, preferences: Preferences, claims: Claims) {
    && |claims| <= PORTS
    && forall port | 0 <= port < |claims| :: IsBestClaim(controllers, preferences[port], claims[..port], claims[port])
  }

  function AssignedTo(controller: Controller, port: int): Controller {
    controller.(sdlIndex := port, cachedIndex := port)
  }

  /** A controller on a configured port loses it until the port's own device has been looked for. */
  function Evicted(controller: Controller, preferences: Preferences): Controller {
    if IsConfigured(preferences, controller.PlayerIndex()) then AssignedTo(controller, NO_PORT) else controller
  }

  function ClaimedPort(claims: Claims, i: Instance): (port: int)
    ensures -1 <= port < |claims|
    ensures port >= 0 ==> claims[port] == Some(i)
    ensures port < 0 ==> Some(i) !in claims
  {
    if claims == [] then -1
    else if claims[|claims| - 1] == Some(i) then |claims| - 1
    else ClaimedPort(claims[..|claims| - 1], i)
  }

  function Applied(controllers: Controllers, preferences: Preferences, claims: Claims): Controllers {
    map i | i in controllers ::
      if ClaimedPort(claims, i) >= 0 then AssignedTo(controllers[i], ClaimedPort(claims, i))
      else Evicted(controllers[i], preferences)
  }

  // ---- The arbitration ----

  class ControllerTable {
    var controllers: Controllers
    var preferences: Preferences

    ghost predicate Valid()
      reads this
    {
      && NoSharing(controllers)
      && forall i | i in controllers :: controllers[i].sdlIndex >= 0 ==> controllers[i].cachedIndex == controllers[i].sdlIndex
    }

    constructor (preferences: Preferences)
      ensures Valid() && controllers == map[] && this.preferences == preferences
    {
      controllers, this.preferences := map[], preferences;
    }

    /** The controller for one configured port: any exact match, else the first fallback met. The
        table is enumerated in no particular order. */
    method FindClaim(controllers: Controllers, preference: Preference, before: Claims) returns (claim: Option<Instance>)
      requires preference.state.Device?
      ensures IsBestClaim(controllers, preference, before, claim)
    {
      claim := None;
      var rest := controllers.Keys;
      while rest != {}
        invariant rest <= controllers.Keys
        invariant claim.Some? ==>
                    && claim.value in controllers && Some(claim.value) !in before
                    && IdentityMatch(preference.identity, controllers[claim.value].identity).Fallback?
        invariant forall j | j in controllers && j !in rest && Some(j) !in before ::
                    !IdentityMatch(preference.identity, controllers[j].identity).Exact?
        invariant claim.None? ==>
                    forall j | j in controllers && j !in rest && Some(j) !in before ::
                      IdentityMatch(preference.identity, controllers[j].identity).NoMatch?
        decreases |rest|
      {
        var i :| i in rest;
        rest := rest - {i};
        if Some(i) in before { continue; }
        match IdentityMatch(preference.identity, controllers[i].identity) {
          case Exact => return Some(i);
          case Fallback =>
            if claim.None? { claim := Some(i); }
          case NoMatch =>
        }
      }
    }

    /** Gives every configured port to the best device that no earlier port has taken. */
    method ApplyPortPreferences() returns (ghost claims: Claims)
      requires Valid()
      modifies `controllers
      ensures Valid()
      ensures |claims| == 4 && AreBestClaims(old(controllers), preferences, claims)
      ensures controllers == Applied(old(controllers), preferences, claims)
    {
      hide ClaimedPort, IdentityMatch, NoSharing, IsBestClaim;
      ghost var before := controllers;
      controllers := map i | i in controllers :: Evicted(controllers[i], preferences);
      var found: Claims := [];
      assert controllers == Applied(before, preferences, found) by { NothingClaimed(before, preferences); }
      var port := 0;
      while port < PORTS
        invariant 0 <= port <= PORTS && |found| == port
        invariant AreBestClaims(before, preferences, found)
        invariant controllers == Applied(before, preferences, found)
      {
        var claim: Option<Instance> := None;
        if preferences[port].state.Device? {
          claim := FindClaim(controllers, preferences[port], found);
          SameDevices(before, controllers, preferences[port], found, claim);
        } else {
          NoClaim(before, preferences[port], found);
        }
        OneMoreClaim(before, preferences, found, claim);
        OneMoreApplied(before, preferences, found, claim);
        if claim.Some? {
          controllers := controllers[claim.value := AssignedTo(controllers[claim.value], port)];
        }
        found := found + [claim];
        port := port + 1;
      }
      claims := found;
      AppliedKeepsApart(before, preferences, claims);
      AppliedKeepsCopies(before, preferences, claims);
    }

    /** The first port, configured ones skipped or not, that no other controller holds. */
    method ClaimPort(instance: Instance, skipConfigured: bool) returns (claimed: bool)
      requires Valid() && instance in controllers
      requires controllers[instance].PlayerIndex() < 0
      modifies `controllers
      ensures Valid()
      ensures controllers.Keys == old(controllers).Keys
      ensures claimed ==>
                var port := controllers[instance].sdlIndex;
                && 0 <= port < 4
                && controllers == old(controllers)[instance := AssignedTo(old(controllers)[instance], port)]
                && IsFree(controllers, port, instance) && (skipConfigured ==> !IsConfigured(preferences, port))
      ensures !claimed ==> controllers == old(controllers) && forall port | 0 <= port < PORTS ::
                IsFree(controllers, port, instance) ==> skipConfigured && IsConfigured(preferences, port)
    {
      var port := 0;
      while port < PORTS
        invariant 0 <= port <= PORTS && controllers == old(controllers)
        invariant forall p | 0 <= p < port :: IsFree(controllers, p, instance) ==> skipConfigured && IsConfigured(preferences, p)
      {
        if !(skipConfigured && IsConfigured(preferences, port)) {
          if IsFree(controllers, port, instance) {
            controllers := controllers[instance := AssignedTo(controllers[instance], port)];
            return true;
          }
        }
        port := port + 1;
      }
      return false;
    }

    /** A port for a controller that SDL gave none: an unconfigured one if possible, and a
        configured one only as a last resort. */
    method EnsurePlayerIndex(instance: Instance)
      requires NoSharing(controllers) && instance in controllers
      requires forall i | i in controllers && i != instance ::
                 controllers[i].sdlIndex >= 0 ==> controllers[i].cachedIndex == controllers[i].sdlIndex
      modifies `controllers
      ensures Valid() && controllers.Keys == old(controllers).Keys
      ensures forall i | i in controllers && i != instance :: controllers[i] == old(controllers)[i]
      ensures controllers[instance].identity == old(controllers)[instance].identity
      ensures old(controllers)[instance].PlayerIndex() >= 0 ==>
                controllers[instance].PlayerIndex() == old(controllers)[instance].PlayerIndex()
      ensures controllers[instance].PlayerIndex() < 0 ==> forall port | 0 <= port < PORTS :: !IsFree(controllers, port, instance)
      ensures old(controllers)[instance].PlayerIndex() < 0 && controllers[instance].PlayerIndex() >= 0 ==>
                controllers[instance].PlayerIndex() < PORTS && IsFree(controllers, controllers[instance].PlayerIndex(), instance)
      ensures old(controllers)[instance].PlayerIndex() < 0 && IsConfigured(preferences, controllers[instance].PlayerIndex()) ==>
                forall port | 0 <= port < PORTS && !IsConfigured(preferences, port) :: !IsFree(controllers, port, instance)
    {
      hide IsConfigured, IsFree;
      var controller := controllers[instance];
      if controller.sdlIndex >= 0 {
        controllers := controllers[instance := controller.(cachedIndex := controller.sdlIndex)];
        return;
      }
      if controller.cachedIndex >= 0 { return; }
      var claimed := ClaimPort(instance, true);
      if !claimed {
        claimed := ClaimPort(instance, false);
        forall port | 0 <= port < PORTS
          ensures IsFree(controllers, port, instance) <==> IsFree(old(controllers), port, instance)
        {
          FreeElsewhere(controllers, old(controllers), port, instance);
        }
      }
    }

    /** A device appears, with the index that SDL gives it: none, or one that is free. */
    method AddController(instance: Instance, identity: Identity, sdlIndex: int) returns (ghost claims: Claims)
      requires Valid()
      requires instance !in controllers ==> sdlIndex < 0 || IsFree(controllers, sdlIndex, instance)
      modifies `controllers
      ensures Valid() && controllers.Keys == old(controllers).Keys + {instance}
      ensures instance in old(controllers) ==> controllers == old(controllers)
      ensures instance !in old(controllers) ==> Arbitrated(controllers, preferences, claims)
      ensures instance !in old(controllers) ==>
                (controllers[instance].PlayerIndex() < 0
                 <==> Some(instance) !in claims && NothingLeft(old(controllers), preferences, sdlIndex))
      ensures instance !in old(controllers) ==>
                Unwanted(preferences, identity) || Preferred(old(controllers), preferences, identity) ==>
                  (controllers[instance].PlayerIndex() < 0
                   <==> Unwanted(preferences, identity) && NothingLeft(old(controllers), preferences, sdlIndex))
    {
      hide ClaimedPort, IdentityMatch, IsBestClaim, Preferred, Unwanted, NothingLeft;
      claims := [];
      if instance in controllers { return; }
      controllers := controllers[instance := Controller(identity, sdlIndex, NO_PORT)];
      EnsurePlayerIndex(instance);
      ghost var before := controllers;
      assert IsEnsured(old(controllers), before, preferences, instance, sdlIndex);
      hide IsEnsured, NoSharing, IsFree, AreBestClaims, IsConfigured, Applied;
      claims := ApplyPortPreferences();
      ApplyingArbitrates(before, preferences, claims);
      NewDeviceEnds(old(controllers), before, preferences, claims, instance, sdlIndex);
    }

    method RefreshController(instance: Instance) returns (found: bool, ghost claims: Claims)
      requires Valid()
      modifies `controllers
      ensures Valid() && controllers.Keys == old(controllers).Keys && found == (instance in controllers)
      ensures if found then Arbitrated(controllers, preferences, claims) else controllers == old(controllers)
    {
      claims := [];
      if instance !in controllers { return false, claims; }
      EnsurePlayerIndex(instance);
      ghost var before := controllers;
      claims := ApplyPortPreferences();
      ApplyingArbitrates(before, preferences, claims);
      found := true;
    }

    method RemoveController(instance: Instance) returns (ghost claims: Claims)
      requires Valid()
      modifies `controllers
      ensures Valid() && controllers.Keys == old(controllers).Keys - {instance}
      ensures instance in old(controllers) ==> Arbitrated(controllers, preferences, claims)
    {
      claims := [];
      if instance !in controllers { return; }
      controllers := controllers - {instance};
      ghost var before := controllers;
      claims := ApplyPortPreferences();
      ApplyingArbitrates(before, preferences, claims);
    }
  }

  lemma FreeElsewhere(a: Controllers, b: Controllers, port: int, i: Instance)
    requires a.Keys == b.Keys && forall j | j in a && j != i :: a[j] == b[j]
    ensures IsFree(a, port, i) <==> IsFree(b, port, i)
  {
  }

  lemma NothingClaimed(controllers: Controllers, preferences: Preferences)
    ensures Applied(controllers, preferences, []) == map i | i in controllers :: Evicted(controllers[i], preferences)
  {
  }

  lemma NoClaim(controllers: Controllers, preference: Preference, before: Claims)
    requires !preference.state.Device?
    ensures IsBestClaim(controllers, preference, before, None)
  {
  }

  lemma SameDevices(a: Controllers, b: Controllers, preference: Preference, before: Claims, claim: Option<Instance>)
    requires a.Keys == b.Keys && forall i | i in a :: a[i].identity == b[i].identity
    requires IsBestClaim(b, preference, before, claim)
    ensures IsBestClaim(a, preference, before, claim)
  {
  }

  lemma OneMoreApplied(controllers: Controllers, preferences: Preferences, found: Claims, claim: Option<Instance>)
    requires claim.Some? ==> claim.value in controllers
    ensures Applied(controllers, preferences, found + [claim])
            == if claim.None? then Applied(controllers, preferences, found)
               else var applied := Applied(controllers, preferences, found);
                    applied[claim.value := AssignedTo(applied[claim.value], |found|)]
  {
  }

  lemma OneMoreClaim(controllers: Controllers, preferences: Preferences, found: Claims, claim: Option<Instance>)
    requires |found| < PORTS && AreBestClaims(controllers, preferences, found)
    requires IsBestClaim(controllers, preferences[|found|], found, claim)
    ensures AreBestClaims(controllers, preferences, found + [claim])
    ensures claim.Some? ==> claim.value in controllers
  {
  }

  lemma AppliedKeepsApart(controllers: Controllers, preferences: Preferences, claims: Claims)
    requires NoSharing(controllers) && |claims| == PORTS && AreBestClaims(controllers, preferences, claims)
    ensures NoSharing(Applied(controllers, preferences, claims))
  {
  }

  lemma AppliedKeepsCopies(controllers: Controllers, preferences: Preferences, claims: Claims)
    requires forall i | i in controllers :: controllers[i].sdlIndex >= 0 ==> controllers[i].cachedIndex == controllers[i].sdlIndex
    ensures var applied := Applied(controllers, preferences, claims);
            forall i | i in applied :: applied[i].sdlIndex >= 0 ==> applied[i].cachedIndex == applied[i].sdlIndex
  {
  }

  // ---- What an arbitration leaves ----

  /** Each configured port is held by its best claim and by nothing else. */
  ghost predicate Arbitrated(controllers: Controllers, preferences: Preferences, claims: Claims) {
    && |claims| == PORTS && AreBestClaims(controllers, preferences, claims)
    && forall port | IsConfigured(preferences, port) :: HeldByClaim(controllers, port, claims[port])
  }

  ghost predicate HeldByClaim(controllers: Controllers, port: int, claim: Option<Instance>) {
    forall i | i in controllers :: controllers[i].PlayerIndex() == port <==> claim == Some(i)
  }

  lemma ApplyingArbitrates(controllers: Controllers, preferences: Preferences, claims: Claims)
    requires |claims| == PORTS && AreBestClaims(controllers, preferences, claims)
    ensures Arbitrated(Applied(controllers, preferences, claims), preferences, claims)
  {
    var applied := Applied(controllers, preferences, claims);
    forall port | 0 <= port < PORTS
      ensures IsBestClaim(applied, preferences[port], claims[..port], claims[port])
    {
      SameDevices(applied, controllers, preferences[port], claims[..port], claims[port]);
    }
    forall port | IsConfigured(preferences, port)
      ensures HeldByClaim(applied, port, claims[port])
    {
      ClaimsHold(controllers, preferences, claims, port);
    }
  }

  lemma ClaimsHold(controllers: Controllers, preferences: Preferences, claims: Claims, port: int)
    requires |claims| == PORTS && AreBestClaims(controllers, preferences, claims) && IsConfigured(preferences, port)
    ensures HeldByClaim(Applied(controllers, preferences, claims), port, claims[port])
  {
  }

  /** A port set to nobody is empty, and a configured port whose device is there, exactly and not
      taken by a lower port, is held by an exact match. */
  lemma ConfiguredPortsAreHonoured(controllers: Controllers, preferences: Preferences, claims: Claims, port: nat)
    requires Arbitrated(controllers, preferences, claims) && port < PORTS
    ensures preferences[port].state.Nobody? ==> forall i | i in controllers :: controllers[i].PlayerIndex() != port
    ensures preferences[port].state.Device? ==>
              ((exists i | i in controllers && Some(i) !in claims[..port] ::
                  IdentityMatch(preferences[port].identity, controllers[i].identity).Exact?)
               <==> exists i | i in controllers && controllers[i].PlayerIndex() == port ::
                  IdentityMatch(preferences[port].identity, controllers[i].identity).Exact?)
  {
  }

  // ---- Who is left without a port ----

  predicate Wants(preference: Preference, identity: Identity) {
    preference.state.Device? && !IdentityMatch(preference.identity, identity).NoMatch?
  }

  predicate Unwanted(preferences: Preferences, identity: Identity) {
    forall port | 0 <= port < PORTS :: !Wants(preferences[port], identity)
  }

  predicate Beats(a: Match, b: Match) {
    (a.Exact? && !b.Exact?) || (a.Fallback? && b.NoMatch?)
  }

  /** Some port matches the device better than it matches any of these controllers. */
  ghost predicate Preferred(controllers: Controllers, preferences: Preferences, identity: Identity) {
    exists port | 0 <= port < PORTS :: PreferredAt(controllers, preferences[port], identity)
  }

  ghost predicate PreferredAt(controllers: Controllers, preference: Preference, identity: Identity) {
    && Wants(preference, identity)
    && forall i | i in controllers ::
         Beats(IdentityMatch(preference.identity, identity), IdentityMatch(preference.identity, controllers[i].identity))
  }

  /** No unconfigured port is open to a device that is about to be added. */
  ghost predicate NothingLeft(controllers: Controllers, preferences: Preferences, sdlIndex: int) {
    if sdlIndex >= 0 then IsConfigured(preferences, sdlIndex)
    else forall port | 0 <= port < PORTS && !IsConfigured(preferences, port) ::
           exists i | i in controllers :: controllers[i].PlayerIndex() == port
  }

  lemma AppliedWithoutPort(controllers: Controllers, preferences: Preferences, claims: Claims, i: Instance)
    requires i in controllers
    ensures Applied(controllers, preferences, claims)[i].PlayerIndex() < 0
            <==> Some(i) !in claims && (controllers[i].PlayerIndex() < 0 || IsConfigured(preferences, controllers[i].PlayerIndex()))
  {
  }

  lemma UnwantedIsUnclaimed(controllers: Controllers, preferences: Preferences, claims: Claims, i: Instance)
    requires i in controllers && Unwanted(preferences, controllers[i].identity)
    requires AreBestClaims(controllers, preferences, claims)
    ensures Some(i) !in claims
  {
    forall port | 0 <= port < |claims|
      ensures claims[port] != Some(i)
    {
      assert !Wants(preferences[port], controllers[i].identity);
    }
  }

  lemma PreferredTakes(controllers: Controllers, preference: Preference, before: Claims, claim: Option<Instance>, i: Instance)
    requires i in controllers && PreferredAt(controllers - {i}, preference, controllers[i].identity)
    requires IsBestClaim(controllers, preference, before, claim)
    ensures Some(i) in before || claim == Some(i)
  {
    if claim.Some? {
      assert claim.value == i || claim.value in controllers - {i};
    }
  }

  lemma PreferredIsClaimed(controllers: Controllers, preferences: Preferences, claims: Claims, i: Instance)
    requires i in controllers && Preferred(controllers - {i}, preferences, controllers[i].identity)
    requires |claims| == PORTS && AreBestClaims(controllers, preferences, claims)
    ensures Some(i) in claims
  {
    var port :| 0 <= port < PORTS && PreferredAt(controllers - {i}, preferences[port], controllers[i].identity);
    PreferredTakes(controllers, preferences[port], claims[..port], claims[port], i);
  }

  /** The table after `EnsurePlayerIndex` for a new device. */
  ghost predicate IsEnsured(before: Controllers, after: Controllers, preferences: Preferences, i: Instance, sdlIndex: int) {
    && i !in before && after.Keys == before.Keys + {i} && (forall j | j in before :: after[j] == before[j])
    && var port := after[i].PlayerIndex();
       && (sdlIndex >= 0 ==> port == sdlIndex)
       && (sdlIndex < 0 ==>
             && (port >= 0 ==> port < PORTS && IsFree(after, port, i))
             && (port < 0 || IsConfigured(preferences, port) ==>
                   forall p | 0 <= p < PORTS && !IsConfigured(preferences, p) :: !IsFree(after, p, i)))
  }

  /** What `EnsurePlayerIndex` leaves a new device is lost at once, or nothing, exactly when nothing
      was left for it. */
  lemma EnsuredInVain(before: Controllers, after: Controllers, preferences: Preferences, i: Instance, sdlIndex: int)
    requires IsEnsured(before, after, preferences, i, sdlIndex)
    ensures after[i].PlayerIndex() < 0 || IsConfigured(preferences, after[i].PlayerIndex())
            <==> NothingLeft(before, preferences, sdlIndex)
  {
    var port := after[i].PlayerIndex();
    if sdlIndex >= 0 {
    } else if port < 0 || IsConfigured(preferences, port) {
      forall p | 0 <= p < PORTS && !IsConfigured(preferences, p)
        ensures exists j | j in before :: before[j].PlayerIndex() == p
      {
        assert !IsFree(after, p, i);
        var j :| j in after && j != i && after[j].PlayerIndex() == p;
        assert j in before;
      }
    } else {
      assert forall j | j in before :: j in after && j != i;
    }
  }

  lemma RestStaysPreferred(before: Controllers, after: Controllers, preferences: Preferences, i: Instance)
    requires i !in before && after.Keys == before.Keys + {i} && forall j | j in before :: after[j] == before[j]
    requires Preferred(before, preferences, after[i].identity)
    ensures Preferred(after - {i}, preferences, after[i].identity)
  {
    var port :| 0 <= port < PORTS && PreferredAt(before, preferences[port], after[i].identity);
    assert PreferredAt(after - {i}, preferences[port], after[i].identity);
  }

  lemma NewDeviceEnds(before: Controllers, after: Controllers, preferences: Preferences, claims: Claims, i: Instance, sdlIndex: int)
    requires IsEnsured(before, after, preferences, i, sdlIndex)
    requires |claims| == PORTS && AreBestClaims(after, preferences, claims)
    ensures var ended := Applied(after, preferences, claims)[i].PlayerIndex();
            && (ended < 0 <==> Some(i) !in claims && NothingLeft(before, preferences, sdlIndex))
            && (Unwanted(preferences, after[i].identity) || Preferred(before, preferences, after[i].identity) ==>
                  (ended < 0 <==> Unwanted(preferences, after[i].identity) && NothingLeft(before, preferences, sdlIndex)))
  {
    hide NothingLeft, Unwanted, Preferred, AreBestClaims;
    EnsuredInVain(before, after, preferences, i, sdlIndex);
    AppliedWithoutPort(after, preferences, claims, i);
    if Unwanted(preferences, after[i].identity) {
      UnwantedIsUnclaimed(after, preferences, claims, i);
    } else if Preferred(before, preferences, after[i].identity) {
      RestStaysPreferred(before, after, preferences, i);
      PreferredIsClaimed(after, preferences, claims, i);
    }
  }

  /** Alone, with every port configured for another device, a new device ends without a port: the
      last resort of `EnsurePlayerIndex` is taken back at once. */
  method LoneDevice(saved: Identity, device: Identity) returns (port: int)
    requires IdentityMatch(saved, device).NoMatch?
    ensures port < 0
  {
    var table := new ControllerTable(EveryPort(Device, saved));
    var claims := table.AddController(0, device, NO_PORT);
    port := table.controllers[0].PlayerIndex();
  }

  /** Of two equal devices and one port configured for them, either may end without a port: the
      order of enumeration decides. */
  lemma EnumerationDecides(identity: Identity)
    requires identity.guid != "" && identity.serial == ""
    ensures var device := Controller(identity, NO_PORT, NO_PORT);
            var devices: Controllers := map[0 := device, 1 := device];
            var preferences := EveryPort(Nobody, identity)[0 := Preference(Device, identity)];
            forall winner: Instance | winner < 2 ::
              var claims: Claims := [Some(winner), None, None, None];
              && AreBestClaims(devices, preferences, claims)
              && Applied(devices, preferences, claims)[winner].PlayerIndex() == 0
              && Applied(devices, preferences, claims)[1 - winner].PlayerIndex() < 0
  {
  }
}
