/** extractRoles: one answer, whatever order the maps of the token are walked in. */
module RoleClaims {
  import opened Prelude
  import opened Ordering

  /** A decoded claim. Numbers carry nothing the code looks at. */
  datatype Value =
    | Null
    | Bool(b: bool)
    | Text(s: string)
    | Number
    | List(items: seq<Value>)
    | Texts(texts: seq<string>)
    | Flags(flags: map<string, bool>)
    | Object(fields: map<string, Value>)

  predicate IsEnabledRole(v: Value) {
    match v
    case Null => false
    case Bool(b) => b
    case Text(s) => s != "" && s != "false"
    case Object(fields) => |fields| > 0
    case _ => true
  }

  /** All that disables a role is null, false, the empty string, "false" and the empty object. */
  lemma EnabledExactly(v: Value)
    ensures !IsEnabledRole(v)
       <==> v == Null || v == Bool(false) || v == Text("") || v == Text("false") || v == Object(map[])
  {
    if v.Object? { assert |v.fields| == 0 <==> v.fields == map[]; }
  }

  /** strings.ToLower, on the letters that can make up "role". */
  function Lower(c: char): char {
    if 'A' <= c <= 'Z' then c - 'A' + 'a' else c
  }

  function LowerAll(s: string): string {
    seq(|s|, i requires 0 <= i < |s| => Lower(s[i]))
  }

  predicate IsRoleKey(key: string) {
    exists i :: 0 <= i < |key| && "role" <= LowerAll(key)[i..]
  }

  /** The letters of "role", in capitals or not. */
  predicate SpellsRoleAt(key: string, i: int) {
    && 0 <= i && i + 4 <= |key|
    && (key[i] == 'r' || key[i] == 'R') && (key[i + 1] == 'o' || key[i + 1] == 'O')
    && (key[i + 2] == 'l' || key[i + 2] == 'L') && (key[i + 3] == 'e' || key[i + 3] == 'E')
  }

  lemma LowersTo(c: char)
    ensures (Lower(c) == 'r' <==> c == 'r' || c == 'R') && (Lower(c) == 'o' <==> c == 'o' || c == 'O')
    ensures (Lower(c) == 'l' <==> c == 'l' || c == 'L') && (Lower(c) == 'e' <==> c == 'e' || c == 'E')
  {
  }

  lemma RoleAt(key: string, i: int)
    requires 0 <= i < |key|
    ensures "role" <= LowerAll(key)[i..] <==> SpellsRoleAt(key, i)
  {
    var rest := LowerAll(key)[i..];
    if i + 4 <= |key| {
      LowersTo(key[i]);
      LowersTo(key[i + 1]);
      LowersTo(key[i + 2]);
      LowersTo(key[i + 3]);
      assert rest[0] == Lower(key[i]) && rest[1] == Lower(key[i + 1]);
      assert rest[2] == Lower(key[i + 2]) && rest[3] == Lower(key[i + 3]);
      assert "role" <= rest <==> rest[0] == 'r' && rest[1] == 'o' && rest[2] == 'l' && rest[3] == 'e';
    }
  }

  /** The key spells "role" somewhere. */
  lemma RoleKeyExactly(key: string)
    ensures IsRoleKey(key) <==> exists i :: SpellsRoleAt(key, i)
  {
    forall i | 0 <= i < |key| ensures "role" <= LowerAll(key)[i..] <==> SpellsRoleAt(key, i) {
      RoleAt(key, i);
    }
  }

  /** The role names a claim's value carries, enabled and non-empty. */
  ghost predicate Carries(v: Value, role: string) {
    role != "" &&
    match v
    case Text(s) => role == s
    case Texts(texts) => role in texts
    case List(items) => Text(role) in items
    case Flags(flags) => role in flags && flags[role]
    case Object(fields) => role in fields && IsEnabledRole(fields[role])
    case _ => false
  }

  ghost predicate Claimed(claims: map<string, Value>, role: string) {
    exists key :: key in claims && IsRoleKey(key) && Carries(claims[key], role)
  }

  /** Adds the roles of one value to the set. */
  method AddRoles(roles: set<string>, v: Value) returns (more: set<string>)
    ensures forall r :: r in more <==> r in roles || Carries(v, r)
  {
    more := roles;
    match v
    case Text(s) =>
      if s != "" { more := more + {s}; }
    case Texts(texts) =>
      for k := 0 to |texts|
        invariant forall r :: r in more <==> r in roles || (r != "" && r in texts[..k])
      {
        if texts[k] != "" { more := more + {texts[k]}; }
      }
      assert texts[..|texts|] == texts;
    case List(items) =>
      for k := 0 to |items|
        invariant forall r :: r in more <==> r in roles || (r != "" && Text(r) in items[..k])
      {
        if items[k].Text? && items[k].s != "" { more := more + {items[k].s}; }
      }
      assert items[..|items|] == items;
    case Flags(flags) =>
      var rest := flags.Keys;
      while rest != {}
        invariant rest <= flags.Keys
        invariant forall r :: r in more <==> r in roles || (r != "" && r in flags && r !in rest && flags[r])
        decreases |rest|
      {
        var role :| role in rest;
        rest := rest - {role};
        if flags[role] && role != "" { more := more + {role}; }
      }
    case Object(fields) =>
      var rest := fields.Keys;
      while rest != {}
        invariant rest <= fields.Keys
        invariant forall r :: r in more
                           <==> r in roles || (r != "" && r in fields && r !in rest && IsEnabledRole(fields[r]))
        decreases |rest|
      {
        var role :| role in rest;
        rest := rest - {role};
        if IsEnabledRole(fields[role]) && role != "" { more := more + {role}; }
      }
    case _ =>
  }

  /** The keys come in any order; so do the elements of the set that is sorted at the end. */
  method ExtractRoles(claims: map<string, Value>) returns (roles: seq<string>)
    ensures Ascending(roles)
    ensures forall r :: r in roles <==> Claimed(claims, r)
  {
    var found: set<string> := {};
    var keys := claims.Keys;
    while keys != {}
      invariant keys <= claims.Keys
      invariant forall r :: r in found <==>
                              exists key :: key in claims && key !in keys && IsRoleKey(key) && Carries(claims[key], r)
      decreases |keys|
    {
      var key :| key in keys;
      ghost var before := found;
      if IsRoleKey(key) {
        found := AddRoles(found, claims[key]);
      }
      var left := keys - {key};
      forall r
        ensures r in found <==> exists k :: k in claims && k !in left && IsRoleKey(k) && Carries(claims[k], r)
      {
        if r in before {
          var k :| k in claims && k !in keys && IsRoleKey(k) && Carries(claims[k], r);
          assert k !in left;
        } else if r in found {
          assert key in claims && key !in left && Carries(claims[key], r);
        }
      }
      keys := left;
    }
    var unsorted: seq<string> := [];
    while found != {}
      invariant forall r :: Claimed(claims, r) <==> r in found || r in unsorted
      decreases |found|
    {
      var role :| role in found;
      found := found - {role};
      unsorted := unsorted + [role];
    }
    SortedIsAscending(unsorted);
    roles := Sorted(unsorted);
  }

  /** What the caller relies on: any two results for the same claims are equal. */
  lemma OrderNeverShows(claims: map<string, Value>, a: seq<string>, b: seq<string>)
    requires Ascending(a) && forall r :: r in a <==> Claimed(claims, r)
    requires Ascending(b) && forall r :: r in b <==> Claimed(claims, r)
    ensures a == b
  {
    AscendingIsUnique(a, b);
  }

  /** A claim whose key does not mention roles in any case contributes nothing. */
  lemma OtherClaimsDoNotMatter(claims: map<string, Value>, key: string, v: Value, role: string)
    requires !IsRoleKey(key)
    ensures Claimed(claims[key := v], role) <==> Claimed(claims - {key}, role)
  {
    var with, without := claims[key := v], claims - {key};
    if Claimed(with, role) {
      var k :| k in with && IsRoleKey(k) && Carries(with[k], role);
      assert k in without && without[k] == with[k];
    }
    if Claimed(without, role) {
      var k :| k in without && IsRoleKey(k) && Carries(without[k], role);
      assert k in with && with[k] == without[k];
    }
  }
}
