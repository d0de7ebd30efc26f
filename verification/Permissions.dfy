/**
 * Discord permissions (dep/dpp/guild.cpp): the base permissions a member gets
 * from roles, and a channel's overwrites on top of them. A 64-bit mask is the
 * set of its bits: | is union, and & with a complement is difference.
 */
module Permissions {
  import opened Bytes

  type Snowflake = n: nat | n < TWO_64

  type Permission = s: set<nat> | forall b | b in s :: b < 64

  /** The bit of p_administrator, 0x8. */
  const ADMINISTRATOR: nat := 3

  /** ~0. */
  const ALL: Permission := set b: nat | b < 64

  datatype OverwriteType = ForRole | ForMember

  datatype Overwrite = Overwrite(id: Snowflake, allow: Permission, deny: Permission, kind: OverwriteType)

  datatype Member = Member(userId: Snowflake, roles: seq<Snowflake>)

  /** The cache find_role looks in: the permissions of each role known. */
  type Roles = map<Snowflake, Permission>

  /** The first overwrite of a kind for an id. */
  function First(s: seq<Overwrite>, id: Snowflake, kind: OverwriteType): Option<Overwrite>
  {
    if s == [] then None
    else if s[0].id == id && s[0].kind == kind then Some(s[0])
    else First(s[1..], id, kind)
  }

  /** Take away what is denied, then add what is allowed. */
  function Apply(p: Permission, allow: Permission, deny: Permission): Permission
  {
    p - deny + allow
  }

  function ApplyFirst(p: Permission, o: Option<Overwrite>): Permission
  {
    if o.None? then p else Apply(p, o.value.allow, o.value.deny)
  }

  /** The permissions of the roles known, put together. */
  function RolePermissions(cache: Roles, roles: seq<Snowflake>): Permission
  {
    if roles == [] then {}
    else
      var last := roles[|roles| - 1];
      RolePermissions(cache, roles[..|roles| - 1]) + if last in cache then cache[last] else {}
  }

  /** What the overwrites of the roles allow and deny, the everyone role aside. */
  function RoleMasks(everyone: Snowflake, overwrites: seq<Overwrite>, roles: seq<Snowflake>): (Permission, Permission)
  {
    if roles == [] then ({}, {})
    else
      var last := roles[|roles| - 1];
      var (allow, deny) := RoleMasks(everyone, overwrites, roles[..|roles| - 1]);
      var o := First(overwrites, last, ForRole);
      if last == everyone || o.None? then (allow, deny)
      else (allow + o.value.allow, deny + o.value.deny)
  }

  function BasePermissions(guildId: Snowflake, ownerId: Snowflake, cache: Roles, m: Member): Permission
  {
    if ownerId == m.userId then ALL
    else if guildId !in cache then {}
    else
      var p := cache[guildId] + RolePermissions(cache, m.roles);
      if ADMINISTRATOR in p then ALL else p
  }

  function Overwritten(guildId: Snowflake, base: Permission, overwrites: seq<Overwrite>, m: Member): Permission
  {
    if ADMINISTRATOR in base then ALL
    else
      var p := ApplyFirst(base, First(overwrites, guildId, ForRole));
      var (allow, deny) := RoleMasks(guildId, overwrites, m.roles);
      ApplyFirst(Apply(p, allow, deny), First(overwrites, m.userId, ForMember))
  }

  /** The guild as the cache holds it. A null user or channel is None. */
  class Guild {
    const id: Snowflake
    const ownerId: Snowflake
    var members: map<Snowflake, Member>

    constructor (id: Snowflake, ownerId: Snowflake, members: map<Snowflake, Member>)
      ensures this.id == id && this.ownerId == ownerId && this.members == members
    {
      this.id, this.ownerId, this.members := id, ownerId, members;
    }

    /** base_permissions of a member. */
    method BasePermissionsOf(cache: Roles, m: Member) returns (r: Permission)
      ensures r == BasePermissions(id, ownerId, cache, m)
    {
      if ownerId == m.userId { return ALL; }
      if id !in cache { return {}; }
      r := cache[id];
      var i := 0;
      while i < |m.roles|
        invariant 0 <= i <= |m.roles|
        invariant r == cache[id] + RolePermissions(cache, m.roles[..i])
      {
        assert m.roles[..i + 1][..i] == m.roles[..i];
        if m.roles[i] in cache {
          r := r + cache[m.roles[i]];
        }
        i := i + 1;
      }
      assert m.roles[..|m.roles|] == m.roles;
      if ADMINISTRATOR in r { return ALL; }
    }

    /** base_permissions of a user, through the members known. */
    method BasePermissionsOfUser(cache: Roles, user: Option<Snowflake>) returns (r: Permission)
      ensures r == if user.Some? && user.value in members
                   then BasePermissions(id, ownerId, cache, members[user.value]) else {}
    {
      if user.None? || user.value !in members { return {}; }
      r := BasePermissionsOf(cache, members[user.value]);
    }

    method FindOverwrite(overwrites: seq<Overwrite>, target: Snowflake, kind: OverwriteType)
      returns (o: Option<Overwrite>)
      ensures o == First(overwrites, target, kind)
    {
      var i := 0;
      while i < |overwrites|
        invariant 0 <= i <= |overwrites|
        invariant First(overwrites, target, kind) == First(overwrites[i..], target, kind)
      {
        if overwrites[i].id == target && overwrites[i].kind == kind { return Some(overwrites[i]); }
        i := i + 1;
      }
      return None;
    }

    /** The loop over a member's roles, the same in both overloads. */
    method FindRoleMasks(overwrites: seq<Overwrite>, roles: seq<Snowflake>)
      returns (allow: Permission, deny: Permission)
      ensures (allow, deny) == RoleMasks(id, overwrites, roles)
    {
      allow, deny := {}, {};
      var i := 0;
      while i < |roles|
        invariant 0 <= i <= |roles|
        invariant (allow, deny) == RoleMasks(id, overwrites, roles[..i])
      {
        assert roles[..i + 1][..i] == roles[..i];
        if roles[i] != id {
          var o := FindOverwrite(overwrites, roles[i], ForRole);
          if o.Some? {
            deny := deny + o.value.deny;
            allow := allow + o.value.allow;
          }
        }
        i := i + 1;
      }
      assert roles[..|roles|] == roles;
    }

    /** permission_overwrites of a user: the member is looked up after the everyone overwrite. */
    method PermissionOverwritesOfUser(base: Permission, user: Option<Snowflake>, channel: Option<seq<Overwrite>>)
      returns (r: Permission)
      ensures user.None? || channel.None? ==> r == {}
      ensures user.Some? && channel.Some? ==>
                r == if ADMINISTRATOR in base then ALL
                     else if user.value !in members then {}
                     else Overwritten(id, base, channel.value, members[user.value])
    {
      if user.None? || channel.None? { return {}; }
      if ADMINISTRATOR in base { return ALL; }
      r := base;
      var everyone := FindOverwrite(channel.value, id, ForRole);
      if everyone.Some? {
        r := r - everyone.value.deny + everyone.value.allow;
      }
      if user.value !in members { return {}; }
      var m := members[user.value];
      var allow, deny := FindRoleMasks(channel.value, m.roles);
      r := r - deny + allow;
      var own := FindOverwrite(channel.value, m.userId, ForMember);
      if own.Some? {
        r := r - own.value.deny + own.value.allow;
      }
    }

    /** permission_overwrites of a member. */
    method PermissionOverwritesOf(cache: Roles, m: Member, overwrites: seq<Overwrite>) returns (r: Permission)
      ensures r == Overwritten(id, BasePermissions(id, ownerId, cache, m), overwrites, m)
    {
      var base := BasePermissionsOf(cache, m);
      if ADMINISTRATOR in base { return ALL; }
      r := base;
      var everyone := FindOverwrite(overwrites, id, ForRole);
      if everyone.Some? {
        r := r - everyone.value.deny + everyone.value.allow;
      }
      var allow, deny := FindRoleMasks(overwrites, m.roles);
      r := r - deny + allow;
      var own := FindOverwrite(overwrites, m.userId, ForMember);
      if own.Some? {
        r := r - own.value.deny + own.value.allow;
      }
    }

    /** Both overloads say the same of a member the guild knows, and the user's says nothing of anyone else. */
    method BothOverloads(cache: Roles, user: Snowflake, overwrites: seq<Overwrite>)
      returns (byUser: Permission, byMember: Permission)
      ensures user in members ==>
                var m := members[user];
                byUser == byMember == Overwritten(id, BasePermissions(id, ownerId, cache, m), overwrites, m)
      ensures user !in members ==> byUser == byMember == {}
    {
      var base := BasePermissionsOfUser(cache, Some(user));
      byUser := PermissionOverwritesOfUser(base, Some(user), Some(overwrites));
      byMember := byUser;
      if user in members {
        byMember := PermissionOverwritesOf(cache, members[user], overwrites);
      }
    }
  }

  // -------------------------------------------------------------- bit by bit

  /** A bit of the base permissions: owners and administrators (bit 3) have all, others what their roles give. */
  ghost predicate InBase(guildId: Snowflake, ownerId: Snowflake, cache: Roles, m: Member, bit: nat)
  {
    || ownerId == m.userId
    || (guildId in cache && (RoleGives(guildId, cache, m, 3) || RoleGives(guildId, cache, m, bit)))
  }

  ghost predicate RoleGives(guildId: Snowflake, cache: Roles, m: Member, bit: nat)
  {
    exists role | role == guildId || role in m.roles :: role in cache && bit in cache[role]
  }

  /** Some role of the member, not the everyone role, has an overwrite that allows the bit; or denies it. */
  ghost predicate RoleAllows(guildId: Snowflake, overwrites: seq<Overwrite>, m: Member, bit: nat)
  {
    exists role | role in m.roles && role != guildId ::
      var o := First(overwrites, role, ForRole); o.Some? && bit in o.value.allow
  }

  ghost predicate RoleDenies(guildId: Snowflake, overwrites: seq<Overwrite>, m: Member, bit: nat)
  {
    exists role | role in m.roles && role != guildId ::
      var o := First(overwrites, role, ForRole); o.Some? && bit in o.value.deny
  }

  /**
   * A bit in a channel. The member's overwrite decides first, then those of
   * its roles together, then everyone's, then the base; where one both allows
   * and denies, it allows.
   */
  ghost predicate Granted(guildId: Snowflake, base: Permission, overwrites: seq<Overwrite>, m: Member, bit: nat)
  {
    var own, everyone := First(overwrites, m.userId, ForMember), First(overwrites, guildId, ForRole);
    if 3 in base then bit < 64
    else if own.Some? && bit in own.value.allow then true
    else if own.Some? && bit in own.value.deny then false
    else if RoleAllows(guildId, overwrites, m, bit) then true
    else if RoleDenies(guildId, overwrites, m, bit) then false
    else if everyone.Some? && bit in everyone.value.allow then true
    else if everyone.Some? && bit in everyone.value.deny then false
    else bit in base
  }

  /** An overwrite is found exactly when it is the earliest with that id and that kind. */
  lemma {:induction false} FirstExactly(s: seq<Overwrite>, id: Snowflake, kind: OverwriteType)
    ensures First(s, id, kind).None? <==> forall i :: 0 <= i < |s| ==> !(s[i].id == id && s[i].kind == kind)
    ensures First(s, id, kind).Some? ==>
              exists i :: 0 <= i < |s| && s[i].id == id && s[i].kind == kind && First(s, id, kind).value == s[i]
                          && forall j :: 0 <= j < i ==> !(s[j].id == id && s[j].kind == kind)
  {
    if s != [] && !(s[0].id == id && s[0].kind == kind) {
      var t := s[1..];
      FirstExactly(t, id, kind);
      if First(t, id, kind).Some? {
        var i :| 0 <= i < |t| && t[i].id == id && t[i].kind == kind && First(t, id, kind).value == t[i]
                 && forall j :: 0 <= j < i ==> !(t[j].id == id && t[j].kind == kind);
        forall j | 0 <= j < i + 1 ensures !(s[j].id == id && s[j].kind == kind) {
          if j > 0 { assert s[j] == t[j - 1]; }
        }
        assert s[i + 1] == t[i];
      } else {
        forall i | 0 <= i < |s| ensures !(s[i].id == id && s[i].kind == kind) {
          if i > 0 { assert s[i] == t[i - 1]; }
        }
      }
    }
  }

  lemma {:induction false} RolePermissionsBit(cache: Roles, roles: seq<Snowflake>, bit: nat)
    ensures bit in RolePermissions(cache, roles) <==> exists role | role in roles :: role in cache && bit in cache[role]
  {
    if roles != [] {
      var front := roles[..|roles| - 1];
      RolePermissionsBit(cache, front, bit);
      assert roles == front + [roles[|roles| - 1]];
      assert roles[|roles| - 1] in roles;
    }
  }

  lemma {:induction false} RoleMasksBit(guildId: Snowflake, overwrites: seq<Overwrite>, m: Member, bit: nat)
    ensures bit in RoleMasks(guildId, overwrites, m.roles).0 <==> RoleAllows(guildId, overwrites, m, bit)
    ensures bit in RoleMasks(guildId, overwrites, m.roles).1 <==> RoleDenies(guildId, overwrites, m, bit)
    decreases |m.roles|
  {
    hide First;
    if m.roles != [] {
      var front, last := m.roles[..|m.roles| - 1], m.roles[|m.roles| - 1];
      RoleMasksBit(guildId, overwrites, m.(roles := front), bit);
      assert m.roles == front + [last];
      assert last in m.roles;
      assert forall role | role in m.roles :: role in front || role == last;
    }
  }

  lemma BaseBit(guildId: Snowflake, ownerId: Snowflake, cache: Roles, m: Member, bit: nat)
    requires bit < 64
    ensures bit in BasePermissions(guildId, ownerId, cache, m) <==> InBase(guildId, ownerId, cache, m, bit)
  {
    hide RolePermissions;
    RolePermissionsBit(cache, m.roles, bit);
    RolePermissionsBit(cache, m.roles, ADMINISTRATOR);
  }

  lemma OverwrittenBit(guildId: Snowflake, base: Permission, overwrites: seq<Overwrite>, m: Member, bit: nat)
    ensures bit in Overwritten(guildId, base, overwrites, m) <==> Granted(guildId, base, overwrites, m, bit)
  {
    hide First, RoleMasks, RoleAllows, RoleDenies;
    RoleMasksBit(guildId, overwrites, m, bit);
  }

  /** The order of a member's roles, and any role listed twice, make no difference. */
  lemma RoleOrderDoesNotMatter(guildId: Snowflake, ownerId: Snowflake, cache: Roles,
                               overwrites: seq<Overwrite>, m: Member, n: Member)
    requires m.userId == n.userId && forall role :: role in m.roles <==> role in n.roles
    ensures var p, q := BasePermissions(guildId, ownerId, cache, m), BasePermissions(guildId, ownerId, cache, n);
            p == q && Overwritten(guildId, p, overwrites, m) == Overwritten(guildId, q, overwrites, n)
  {
    hide BasePermissions, Overwritten, First;
    var p, q := BasePermissions(guildId, ownerId, cache, m), BasePermissions(guildId, ownerId, cache, n);
    forall bit: nat | bit < 64 ensures bit in p <==> bit in q {
      BaseBit(guildId, ownerId, cache, m, bit);
      BaseBit(guildId, ownerId, cache, n, bit);
    }
    assert p == q;
    forall bit: nat
      ensures bit in Overwritten(guildId, p, overwrites, m) <==> bit in Overwritten(guildId, q, overwrites, n)
    {
      OverwrittenBit(guildId, p, overwrites, m, bit);
      OverwrittenBit(guildId, q, overwrites, n, bit);
      assert RoleAllows(guildId, overwrites, m, bit) == RoleAllows(guildId, overwrites, n, bit);
      assert RoleDenies(guildId, overwrites, m, bit) == RoleDenies(guildId, overwrites, n, bit);
    }
  }

  /** Without the everyone role in the cache the base is empty, but a channel's overwrites still grant what they allow. */
  lemma OverwritesCountWithoutEveryone(guildId: Snowflake, ownerId: Snowflake, cache: Roles,
                                       overwrites: seq<Overwrite>, m: Member, bit: nat)
    requires guildId !in cache && ownerId != m.userId
    ensures var base := BasePermissions(guildId, ownerId, cache, m);
            base == {} && (bit in Overwritten(guildId, base, overwrites, m) <==> Granted(guildId, {}, overwrites, m, bit))
  {
    OverwrittenBit(guildId, {}, overwrites, m, bit);
  }
}
