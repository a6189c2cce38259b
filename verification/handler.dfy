/** The permission handler facade (`BukkitPermissionHandler`): which
    permission profile a player gets, what a profile answers, and which
    capabilities the handler declares. */
module Handler {
  import opened Wrappers
  import opened Resolution

  /** The players the facade can be asked about: a player connected through
      the platform, the console, or any other kind of online player. */
  datatype PlotPlayer = Online(platform: Player) | Console | Other

  /** A player who is not connected, known only by identity. */
  datatype OfflinePlotPlayer = OfflinePlotPlayer(id: string)

  /** A permission profile: a live profile holds a reference to its platform
      player that may have expired (`None`); the console profile grants
      everything. */
  datatype Profile = Live(reference: Option<Player>) | ConsoleProfile

  datatype Capability = OnlinePermissions | OfflinePermissions

  /** What `profile` answers for `node` in `world`, with the backend queries
      it makes. */
  function ProfileHasPermission(profile: Profile, world: Option<string>, node: string): (r: Answer)
    requires profile.Live? ==> Admissible(profile.reference, node)
    ensures profile.ConsoleProfile? ==> r.granted && r.queries == []
    ensures profile.Live? && profile.reference.None? ==> !r.granted && r.queries == []
    ensures profile.Live? && profile.reference.Some? ==> |r.queries| >= 1
  {
    match profile
    case ConsoleProfile => Answer(true, [])
    case Live(reference) => HasPermission(reference, world, node)
  }

  /** The profile of an online player. */
  function GetPermissionProfile(player: PlotPlayer): (r: Option<Profile>)
    ensures r.Some? <==> !player.Other?
    ensures player.Console? ==> r == Some(ConsoleProfile)
    ensures player.Online? ==> r.Some? && r.value.Live? && r.value.reference == Some(player.platform)
  {
    match player
    case Online(p) => Some(Live(Some(p)))
    case Console => Some(ConsoleProfile)
    case Other => None
  }

  /** The profile of an offline player: this handler has none to give. */
  function GetOfflinePermissionProfile(player: OfflinePlotPlayer): (r: Option<Profile>)
    ensures r.None?
  {
    None
  }

  /** The capabilities this handler declares. */
  function GetCapabilities(): (r: set<Capability>)
    ensures OnlinePermissions in r
    ensures OfflinePermissions !in r
  {
    {OnlinePermissions}
  }

  /** A profile obtained from the facade answers as the engine does for the
      connected player, grants everything for the console, and is absent for
      any other player. */
  lemma ProfileDispatch(player: PlotPlayer, world: Option<string>, node: string)
    requires player.Online? ==> Admissible(Some(player.platform), node)
    ensures player.Online? ==>
      && GetPermissionProfile(player).Some?
      && ProfileHasPermission(GetPermissionProfile(player).value, world, node)
         == HasPermission(Some(player.platform), world, node)
    ensures player.Console? ==>
      && GetPermissionProfile(player).Some?
      && ProfileHasPermission(GetPermissionProfile(player).value, world, node) == Answer(true, [])
    ensures player.Other? ==> GetPermissionProfile(player).None?
  {
  }

  /** The declared capabilities agree with the profiles the facade hands
      out: every connected player gets a profile, and offline players get
      one exactly when offline permissions are declared, which they are not. */
  lemma CapabilitiesMatchProfiles(player: Player, offline: OfflinePlotPlayer)
    ensures OnlinePermissions in GetCapabilities() ==> GetPermissionProfile(Online(player)).Some?
    ensures OfflinePermissions in GetCapabilities() <==> GetOfflinePermissionProfile(offline).Some?
  {
  }

  /** An expired player reference denies every node without querying the
      backend, whatever the node. */
  lemma ExpiredProfileDenies(world: Option<string>, node: string)
    ensures ProfileHasPermission(Live(None), world, node) == Answer(false, [])
  {
  }
}
