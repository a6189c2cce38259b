# PlotSquared Bukkit permission handler — Dafny model

This project models the permission handler that PlotSquared's Bukkit platform
installs (`BukkitPermissionHandler`). Its core is the hierarchical wildcard
check of a player's permission profile. A dotted node such as
`plots.admin.destroy.other` is decided as follows:

1. If the player has gone away, the node is denied.
2. If the platform grants the literal node, it is granted.
3. If the node has no `.`, it is denied.
4. Otherwise the handler walks the node's wildcard chain
   `plots.admin.destroy.other, plots.admin.destroy.*, plots.admin.*, plots.*, *`
   from specific to general. Every explicitly set entry overwrites the running
   decision, which starts as deny.

Because of step 4, the last explicit setting in that order wins, and a general
setting overrides a more specific one. The model keeps this precedence as
written; the code states no intent for it. The `Lists.reverse` (line 133)
orders the loop's candidates deepest first: the node, then the wildcards of
its ancestors from depth k-1 down to depth 2. The two appends (lines 134-135) then put `p0.*` and `*` at
the end, so those two beat every other setting whatever the loop's order. The
handler's own debug printer (lines 160-186) lists the candidates in the
opposite order, general first and without `*`. Walked in that order, the most
specific setting would win.

Around the check sits a small facade. It gives a live profile to a
connected platform player and a grant-everything profile to the console. It
gives no profile to any other player or to an offline player. It declares the
capability set `{ONLINE_PERMISSIONS}`.

Modules:

- `Wrappers` has the `Option` type. It is used for the player reference that can
  expire and for the facade's profile, which can be absent.
- `Nodes` splits a node on `.` and joins segments back. It also defines
  well-formed nodes, which have no empty segments, and proves that splitting and
  joining are inverses.
- `Chain` builds the candidate chain the way the handler does (`BuildChain`).
  `ChainEntry` gives a direct description of each position, and `ChainShape`
  proves that the two agree.
- `Resolution` holds the platform backend as two abstract functions,
  `isSet(s)` and `has(s)`. The value `has(s)` may be a platform default when
  `s` is unset. The module also defines the walk over the chain and
  `HasPermission`. Every answer carries the ordered list of backend queries
  made to reach it.
- `Handler` holds the facade: profile dispatch for online and offline players,
  and the capabilities.

The `world` argument of `hasPermission` is accepted and never consulted, as in
the source. Resolution is a pure function of the backend and the node, so
asking again with the same backend state gives the same answer.

## Model

| member | source | states |
|---|---|---|
| Nodes.Split | Bukkit/src/main/java/com/plotsquared/bukkit/permissions/BukkitPermissionHandler.java:101-102 | the segments contain no `.`, and a node contains `.` exactly when it splits into at least two segments |
| Nodes.JoinSplit | Bukkit/src/main/java/com/plotsquared/bukkit/permissions/BukkitPermissionHandler.java:102 | joining the segments of any node with `.` gives the node back |
| Nodes.SplitJoin | Bukkit/src/main/java/com/plotsquared/bukkit/permissions/BukkitPermissionHandler.java:102 | splitting a `.`-joined list of dot-free segments gives the same list back |
| Nodes.AncestorIsPrefix | Bukkit/src/main/java/com/plotsquared/bukkit/permissions/BukkitPermissionHandler.java:105-135 | every shallower ancestor followed by `.` is a prefix of a deeper one |
| Nodes.LeadingSeparatorNotWellFormed | Bukkit/src/main/java/com/plotsquared/bukkit/permissions/BukkitPermissionHandler.java:101-102 | a dotted node that starts with `.`, which includes every node made only of separators, has an empty first segment and is refused by the precondition |
| Chain.DottedPrefix | Bukkit/src/main/java/com/plotsquared/bukkit/permissions/BukkitPermissionHandler.java:114-117 | the string the inner loop accumulates from the first i segments, each followed by `.`; its meaning is proved by `Chain.DottedPrefixJoin` |
| Chain.Candidate | Bukkit/src/main/java/com/plotsquared/bukkit/permissions/BukkitPermissionHandler.java:121-126 | the candidate recorded for position i >= 1: accumulated prefix and segment i, with `.*` unless i is the last position; its meaning is proved by `Chain.CandidateIsAncestor` |
| Chain.DottedPrefixJoin | Bukkit/src/main/java/com/plotsquared/bukkit/permissions/BukkitPermissionHandler.java:110-126 | the prefix the inner loop accumulates from the first i segments, followed by segment i, is the ancestor of depth i+1: the first i+1 segments joined by `.` |
| Chain.CandidateIsAncestor | Bukkit/src/main/java/com/plotsquared/bukkit/permissions/BukkitPermissionHandler.java:110-126 | the candidate for position i is the first i+1 segments joined by `.`, followed by `.*` unless i is the last position |
| Chain.Ascending | Bukkit/src/main/java/com/plotsquared/bukkit/permissions/BukkitPermissionHandler.java:105-131 | the forward list holds one candidate for each position 1..k-1, in increasing order |
| Chain.Reverse | Bukkit/src/main/java/com/plotsquared/bukkit/permissions/BukkitPermissionHandler.java:133 | the reversed list has the same length and holds the element at position n-1-i at position i |
| Chain.BuildChain | Bukkit/src/main/java/com/plotsquared/bukkit/permissions/BukkitPermissionHandler.java:102-135 | the chain has one entry per segment plus `*`, with the root wildcard `p0.*` second to last and `*` last; every position is fixed by `Chain.ChainShape` |
| Chain.ChainAt | Bukkit/src/main/java/com/plotsquared/bukkit/permissions/BukkitPermissionHandler.java:105-135 | position j of the built chain is the node for j = 0, the wildcard of the first k-j segments for 0 < j < k, and `*` for j = k |
| Chain.ChainShape | Bukkit/src/main/java/com/plotsquared/bukkit/permissions/BukkitPermissionHandler.java:105-135 | a node of k >= 2 segments has a chain of exactly k+1 entries: the node, then `p0..pj.*` for j = k-2 down to 0, then `*` |
| Chain.WildcardCoversNode | Bukkit/src/main/java/com/plotsquared/bukkit/permissions/BukkitPermissionHandler.java:105-135 | every entry strictly between the node and `*` ends in `.*`, and what precedes its `*` is a prefix of the node: each wildcard in the chain covers the node |
| Chain.FourSegmentChain | Bukkit/src/main/java/com/plotsquared/bukkit/permissions/BukkitPermissionHandler.java:105-135 | a four-segment node `a.b.c.d` has the chain `[a.b.c.d, a.b.c.*, a.b.*, a.*, *]` |
| Chain.ExampleChain | Bukkit/src/main/java/com/plotsquared/bukkit/permissions/BukkitPermissionHandler.java:105-135 | the chain of `plots.admin.destroy.other` is `[plots.admin.destroy.other, plots.admin.destroy.*, plots.admin.*, plots.*, *]`, most specific first (the debug printer lists the same candidates, without `*`, in the opposite order) |
| Resolution.Step | Bukkit/src/main/java/com/plotsquared/bukkit/permissions/BukkitPermissionHandler.java:137-147 | an explicitly set candidate overwrites the running decision with its value, and an unset one leaves it alone; the first query always asks whether the candidate is set |
| Resolution.Walk | Bukkit/src/main/java/com/plotsquared/bukkit/permissions/BukkitPermissionHandler.java:137-147 | the walk asks only about chain entries, and it asks whether every entry of the chain is set |
| Resolution.WalkLastSetWins | Bukkit/src/main/java/com/plotsquared/bukkit/permissions/BukkitPermissionHandler.java:103-149 | the walk ends with `has(s)` for the last set entry `s`, or with its starting decision when nothing is set; a later, more general setting beats an earlier one |
| Resolution.HasPermission | Bukkit/src/main/java/com/plotsquared/bukkit/permissions/BukkitPermissionHandler.java:92-150 | an expired reference denies with no backend query; otherwise the literal node is queried first; a granted literal node returns true with no other query; a node without `.` returns exactly `has(node)` with no chain walked; otherwise only the node and its chain entries are queried |
| Resolution.ChainDecides | Bukkit/src/main/java/com/plotsquared/bukkit/permissions/BukkitPermissionHandler.java:100-149 | past the fast path, a dotted node gets `has(s)` for the last set chain entry `s`, and false when no entry is set |
| Resolution.WholeChainConsulted | Bukkit/src/main/java/com/plotsquared/bukkit/permissions/BukkitPermissionHandler.java:137-147 | past the fast path, the backend is asked about every chain entry: the walk never stops at the first match |
| Resolution.ExampleDenies | Bukkit/src/main/java/com/plotsquared/bukkit/permissions/BukkitPermissionHandler.java:100-147 | with `a.b.*` granted, `a.*` denied and nothing else set, every well-formed three-segment node under `a` that is not granted literally is denied, because `a.*` is the last set entry of its chain |
| Resolution.GeneralDenyOverridesSpecificGrant | Bukkit/src/main/java/com/plotsquared/bukkit/permissions/BukkitPermissionHandler.java:137-147 | with `a.b.*` granted, `a.*` denied and nothing else set, `a.b.c` is denied |
| Handler.ProfileHasPermission | Bukkit/src/main/java/com/plotsquared/bukkit/permissions/BukkitPermissionHandler.java:92-97 | the console profile grants every node without querying; a live profile with an expired reference denies every node without querying; a live profile with a player always queries the backend |
| Handler.GetPermissionProfile | Bukkit/src/main/java/com/plotsquared/bukkit/permissions/BukkitPermissionHandler.java:57-66 | a profile is returned exactly for platform players and the console: a live profile on the platform player for the former, the console profile for the latter |
| Handler.GetOfflinePermissionProfile | Bukkit/src/main/java/com/plotsquared/bukkit/permissions/BukkitPermissionHandler.java:70-74 | an offline player never gets a profile |
| Handler.GetCapabilities | Bukkit/src/main/java/com/plotsquared/bukkit/permissions/BukkitPermissionHandler.java:78-80 | online permissions are declared and offline permissions are not |
| Handler.ProfileDispatch | Bukkit/src/main/java/com/plotsquared/bukkit/permissions/BukkitPermissionHandler.java:57-66 | a platform player's profile answers exactly as the engine does for that player; the console's profile grants with no query; any other player has no profile |
| Handler.CapabilitiesMatchProfiles | Bukkit/src/main/java/com/plotsquared/bukkit/permissions/BukkitPermissionHandler.java:57-80 | the declared capabilities agree with the facade: every connected player gets a profile, and an offline player gets one exactly when offline permissions are declared |
| Handler.ExpiredProfileDenies | Bukkit/src/main/java/com/plotsquared/bukkit/permissions/BukkitPermissionHandler.java:96-97 | a profile whose player has gone away denies every node and makes no backend query |

## Left out

- `initialize()` (lines 51-53) only prints a banner. The `main` debug printer (lines 154-188) only prints; it is not modelled. It lists the candidates of one fixed node from general to specific and leaves out `*`.
- `BukkitModule` is dependency-injection wiring with global plugin and server lookups. It has no algorithmic content.
- The weak reference's garbage-collection behaviour is not modelled. A profile holds an `Option<Player>`, and `None` stands for a reference that has expired.
- The platform's `Player` permission backend, and how it computes defaults for unset nodes, is a foreign call. It stays abstract as the two functions `isSet` and `has`.
- The `Lists.reverse` list is a view, and the two `add` calls go through it into the backing list. This is modelled as a plain reversed sequence with two entries appended, which gives the same sequence.
- Malformed dotted nodes with empty segments (a leading, trailing or doubled `.`) are excluded by the precondition `Resolution.Admissible`. The source's `String.split` drops trailing empty strings. For most such nodes it then builds a chain with odd entries. For a node made only of separators (`.`, `..`) it returns no segments at all, and `parts[0]` at line 134 throws, unless the backend already granted the literal node at line 100. So for those nodes the source does not return a boolean; `Nodes.LeadingSeparatorNotWellFormed` shows the precondition excludes them. The precondition only applies where the source actually splits: past the expiry check, past the fast path, and for a node containing `.`. An expired reference, a granted literal node and a node without `.` (`""` included) need no precondition.
- The source of `ConsolePermissionProfile` is not among the modelled files. The model reads the console profile as granting every node with no backend query.
- The `PermissionHandlerCapability` enum is not part of this model. `OfflinePermissions` stands for its offline constant, so that the absence of offline support can be stated.
