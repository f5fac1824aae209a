/** The static permission check: three fast paths before a glob fallback. */
module GlobPermission {

  const DEFAULT_PERMISSIONS: seq<string> := [
    "customer:create", "customer:read", "customer:update", "customer:delete",
    "opportunity:create", "opportunity:read", "opportunity:update", "opportunity:delete",
    "ticket:create", "ticket:read", "ticket:update", "ticket:delete",
    "user:manage", "user:read", "admin:all"]

  /** `ROLE_PERMISSIONS.get(role, [])`. */
  function RolePermissions(role: string): seq<string> {
    match role
    case "owner" => ["*"]
    case "admin" => DEFAULT_PERMISSIONS
    case "manager" =>
      ["customer:read", "customer:update", "opportunity:read", "opportunity:create", "opportunity:update",
       "ticket:read", "ticket:create", "ticket:update", "user:read"]
    case "sales" =>
      ["customer:read", "customer:create", "customer:update",
       "opportunity:read", "opportunity:create", "opportunity:update"]
    case "support" =>
      ["customer:read", "opportunity:read", "ticket:read", "ticket:create", "ticket:update", "ticket:*"]
    case "viewer" => ["customer:read", "opportunity:read", "ticket:read"]
    case "member" => ["customer:read", "customer:create", "opportunity:read"]
    case _ => []
  }

  /** `fnmatch(s, pattern)` for patterns without a character class: `*` stands
      for any text, `?` for any one character, anything else for itself. */
  predicate Glob(pattern: string, s: string)
    decreases |pattern| + |s|
  {
    if pattern == "" then s == ""
    else if pattern[0] == '*' then Glob(pattern[1..], s) || (s != "" && Glob(pattern, s[1..]))
    else s != "" && (pattern[0] == '?' || pattern[0] == s[0]) && Glob(pattern[1..], s[1..])
  }

  function Target(resource: string, action: string): string { resource + ":" + action }

  /** `has_permission` on the role's list. */
  predicate HasPermission(perms: seq<string>, resource: string, action: string) {
    if perms == [] then false
    else
      var target := Target(resource, action);
      if target in perms then true
      else if "*" in perms then true
      else if resource + ":*" in perms then true
      else exists p :: p in perms && '*' in p && Glob(p, target)
  }

  /** What a list of patterns means. */
  ghost predicate Granted(perms: seq<string>, target: string) {
    exists p :: p in perms && Glob(p, target)
  }

  lemma {:induction false} StarMatchesAll(s: string)
    ensures Glob("*", s)
  {
    var p := "*";
    assert p[1..] == "";
    if s != "" { StarMatchesAll(s[1..]); }
  }

  /** A pattern read as a text matches itself. */
  lemma {:induction false} MatchesItself(p: string)
    ensures Glob(p, p)
  {
    if p != "" {
      MatchesItself(p[1..]);
      if p[0] == '*' { StarSkips(p[1..], p); }
    }
  }

  /** A leading `*` can skip the first character. */
  lemma StarSkips(rest: string, s: string)
    requires s != "" && Glob(rest, s[1..])
    ensures Glob("*" + rest, s)
  {
    var p := "*" + rest;
    assert p[1..] == rest;
    assert Glob(p, s[1..]);
  }

  lemma {:induction false} GlobConcat(p: string, s: string, q: string, t: string)
    requires Glob(p, s) && Glob(q, t)
    ensures Glob(p + q, s + t)
    decreases |p| + |s|
  {
    if p == "" {
      assert p + q == q && s + t == t;
    } else {
      assert (p + q)[1..] == p[1..] + q;
      if s != "" { assert (s + t)[1..] == s[1..] + t; }
      if p[0] == '*' && Glob(p[1..], s) {
        GlobConcat(p[1..], s, q, t);
      } else if p[0] == '*' {
        GlobConcat(p, s[1..], q, t);
      } else {
        GlobConcat(p[1..], s[1..], q, t);
      }
    }
  }

  /** A pattern without wildcards matches only itself. */
  lemma {:induction false} LiteralMatchesOnlyItself(p: string, s: string)
    requires '*' !in p && '?' !in p
    ensures Glob(p, s) <==> p == s
  {
    if p != "" && s != "" {
      LiteralMatchesOnlyItself(p[1..], s[1..]);
      assert p == [p[0]] + p[1..] && s == [s[0]] + s[1..];
    }
  }

  /** The list the check is exact on: a `?` only where the glob fallback is tried. */
  predicate Plain(p: string) { '[' !in p && ('?' in p ==> '*' in p) }

  /** The fast paths are sound and redundant: the check grants a target exactly
      when some pattern of the list matches it, whatever characters the
      resource and the action contain. */
  lemma CheckMeansGlob(perms: seq<string>, resource: string, action: string)
    requires forall p :: p in perms ==> Plain(p)
    ensures HasPermission(perms, resource, action) <==> Granted(perms, Target(resource, action))
  {
    var target := Target(resource, action);
    MatchesItself(target);
    StarMatchesAll(target);
    MatchesItself(resource + ":");
    StarMatchesAll(action);
    GlobConcat(resource + ":", resource + ":", "*", action);
    assert resource + ":" + "*" == resource + ":*";
    forall p | p in perms && Glob(p, target) && '*' !in p
      ensures p == target
    {
      LiteralMatchesOnlyItself(p, target);
    }
  }

  lemma {:induction false} QuestionMarksMatch(p: string, s: string)
    requires '*' !in p && |p| == |s|
    requires forall i :: 0 <= i < |p| ==> p[i] == s[i] || p[i] == '?'
    ensures Glob(p, s)
  {
    if p != "" {
      forall i | 0 <= i < |p| - 1 ensures p[1..][i] == s[1..][i] || p[1..][i] == '?' {
        assert p[1..][i] == p[i + 1] && s[1..][i] == s[i + 1];
      }
      assert p[0] in p;
      QuestionMarksMatch(p[1..], s[1..]);
    }
  }

  /** For a one-pattern list the condition is exact: a pattern with `?` but no
      `*` never reaches the glob fallback, and always misses something. */
  lemma ExactUnlessBareQuestionMark(p: string)
    requires '[' !in p
    ensures (forall resource, action :: HasPermission([p], resource, action) <==> Granted([p], Target(resource, action)))
       <==> ('?' in p ==> '*' in p)
  {
    if '?' in p ==> '*' in p {
      forall resource, action
        ensures HasPermission([p], resource, action) <==> Granted([p], Target(resource, action))
      {
        CheckMeansGlob([p], resource, action);
      }
    } else {
      var i :| 0 <= i < |p| && p[i] == '?';
      var target := p[i := ':'];
      var resource, action := target[..i], target[i + 1..];
      assert target == Target(resource, action);
      QuestionMarksMatch(p, target);
      assert p in [p] && Granted([p], target);
      assert target[i] != p[i];
      var wild := resource + ":*";
      assert wild[|wild| - 1] == '*';
      assert !HasPermission([p], resource, action);
    }
  }

  /** For instance: the pattern matches `a:b`, the check denies it. */
  lemma BareQuestionMarkDenied()
    ensures Granted(["a?b"], Target("a", "b")) && !HasPermission(["a?b"], "a", "b")
  {
    var p, s := "a?b", Target("a", "b");
    assert s == "a:b";
    QuestionMarksMatch(p, s);
    assert p in [p];
    assert p[1] != s[1];
    assert "a" + ":*" == "a:*" && p[1] != "a:*"[1];
  }

  predicate PlainChars(p: string) { forall i :: 0 <= i < |p| ==> p[i] != '[' && p[i] != '?' }

  /** The shipped table satisfies the condition, so for every role, known or
      not, the check is the meaning of the role's patterns. */
  lemma RoleCheckMeansGlob(role: string, resource: string, action: string)
    ensures HasPermission(RolePermissions(role), resource, action)
       <==> Granted(RolePermissions(role), Target(resource, action))
  {
    TableIsPlain(role);
    CheckMeansGlob(RolePermissions(role), resource, action);
  }

  lemma TableIsPlain(role: string)
    ensures forall p :: p in RolePermissions(role) ==> Plain(p)
  {
    DefaultsArePlain();
    assert PlainChars("*") && PlainChars("ticket:*");
    assert forall p :: p in RolePermissions(role) ==> p in DEFAULT_PERMISSIONS || p == "*" || p == "ticket:*";
  }

  lemma DefaultsArePlain()
    ensures forall p :: p in DEFAULT_PERMISSIONS ==> PlainChars(p)
  {
    assert PlainChars("customer:create");
    assert PlainChars("customer:read");
    assert PlainChars("customer:update");
    assert PlainChars("customer:delete");
    assert PlainChars("opportunity:create");
    assert PlainChars("opportunity:read");
    assert PlainChars("opportunity:update");
    assert PlainChars("opportunity:delete");
    assert PlainChars("ticket:create");
    assert PlainChars("ticket:read");
    assert PlainChars("ticket:update");
    assert PlainChars("ticket:delete");
    assert PlainChars("user:manage");
    assert PlainChars("user:read");
    assert PlainChars("admin:all");
  }

  // ---------------------------------------------------------------------------
  // What each role of the shipped table may do
  // ---------------------------------------------------------------------------

  ghost predicate Starless(p: string) { forall i :: 0 <= i < |p| ==> p[i] != '*' }

  /** A list without wildcards grants exactly the targets on it. */
  lemma StarlessGrants(perms: seq<string>, resource: string, action: string)
    requires forall p :: p in perms ==> Starless(p)
    ensures HasPermission(perms, resource, action) <==> Target(resource, action) in perms
  {
    var star, wild := "*", resource + ":*";
    assert star[0] == '*' && wild[|wild| - 1] == '*';
  }

  lemma DefaultsAreStarless()
    ensures forall p :: p in DEFAULT_PERMISSIONS ==> Starless(p)
  {
    assert Starless("customer:create") && Starless("customer:read") && Starless("customer:update");
    assert Starless("customer:delete") && Starless("opportunity:create") && Starless("opportunity:read");
    assert Starless("opportunity:update") && Starless("opportunity:delete") && Starless("ticket:create");
    assert Starless("ticket:read") && Starless("ticket:update") && Starless("ticket:delete");
    assert Starless("user:manage") && Starless("user:read") && Starless("admin:all");
  }

  /** The targets of one resource, one for each of the actions. */
  predicate OneOf(target: string, resource: string, actions: set<string>) {
    exists a :: a in actions && target == Target(resource, a)
  }

  lemma DefaultTargets()
    ensures Target("customer", "create") == "customer:create" && Target("customer", "read") == "customer:read"
    ensures Target("customer", "update") == "customer:update" && Target("customer", "delete") == "customer:delete"
    ensures Target("opportunity", "create") == "opportunity:create" && Target("opportunity", "read") == "opportunity:read"
    ensures Target("opportunity", "update") == "opportunity:update" && Target("opportunity", "delete") == "opportunity:delete"
    ensures Target("ticket", "create") == "ticket:create" && Target("ticket", "read") == "ticket:read"
    ensures Target("ticket", "update") == "ticket:update" && Target("ticket", "delete") == "ticket:delete"
    ensures Target("user", "manage") == "user:manage" && Target("user", "read") == "user:read"
    ensures Target("admin", "all") == "admin:all"
  {
  }

  /** What a role may do. Only the owner may do everything, only support every
      action on tickets, and a role the table does not know nothing. */
  lemma RoleMayExactly(role: string, resource: string, action: string)
    ensures var target := Target(resource, action);
            HasPermission(RolePermissions(role), resource, action) <==>
              match role
              case "owner" => true
              case "admin" =>
                || OneOf(target, "customer", {"create", "read", "update", "delete"})
                || OneOf(target, "opportunity", {"create", "read", "update", "delete"})
                || OneOf(target, "ticket", {"create", "read", "update", "delete"})
                || OneOf(target, "user", {"manage", "read"}) || OneOf(target, "admin", {"all"})
              case "manager" =>
                || OneOf(target, "customer", {"read", "update"})
                || OneOf(target, "opportunity", {"create", "read", "update"})
                || OneOf(target, "ticket", {"create", "read", "update"})
                || OneOf(target, "user", {"read"})
              case "sales" =>
                OneOf(target, "customer", {"create", "read", "update"}) || OneOf(target, "opportunity", {"create", "read", "update"})
              case "support" => target == "customer:read" || target == "opportunity:read" || "ticket:" <= target
              case "viewer" =>
                OneOf(target, "customer", {"read"}) || OneOf(target, "opportunity", {"read"}) || OneOf(target, "ticket", {"read"})
              case "member" => OneOf(target, "customer", {"create", "read"}) || OneOf(target, "opportunity", {"read"})
              case _ => false
  {
    match role
    case "admin" => AdminMay(resource, action);
    case "manager" => ManagerMay(resource, action);
    case "sales" => SalesMay(resource, action);
    case "support" => SupportMay(resource, action);
    case "viewer" => ReadersMay(role, resource, action);
    case "member" => ReadersMay(role, resource, action);
    case _ =>
  }

  lemma AdminMay(resource: string, action: string)
    ensures var target := Target(resource, action);
            HasPermission(RolePermissions("admin"), resource, action) <==>
              || OneOf(target, "customer", {"create", "read", "update", "delete"})
              || OneOf(target, "opportunity", {"create", "read", "update", "delete"})
              || OneOf(target, "ticket", {"create", "read", "update", "delete"})
              || OneOf(target, "user", {"manage", "read"}) || OneOf(target, "admin", {"all"})
  {
    DefaultsAreStarless();
    DefaultTargets();
    StarlessGrants(RolePermissions("admin"), resource, action);
  }

  lemma ManagerMay(resource: string, action: string)
    ensures var target := Target(resource, action);
            HasPermission(RolePermissions("manager"), resource, action) <==>
              || OneOf(target, "customer", {"read", "update"})
              || OneOf(target, "opportunity", {"create", "read", "update"})
              || OneOf(target, "ticket", {"create", "read", "update"})
              || OneOf(target, "user", {"read"})
  {
    DefaultsAreStarless();
    DefaultTargets();
    StarlessGrants(RolePermissions("manager"), resource, action);
  }

  lemma SalesMay(resource: string, action: string)
    ensures var target := Target(resource, action);
            HasPermission(RolePermissions("sales"), resource, action) <==>
              OneOf(target, "customer", {"create", "read", "update"}) || OneOf(target, "opportunity", {"create", "read", "update"})
  {
    DefaultsAreStarless();
    DefaultTargets();
    StarlessGrants(RolePermissions("sales"), resource, action);
  }

  lemma ReadersMay(role: string, resource: string, action: string)
    requires role in {"viewer", "member"}
    ensures var target := Target(resource, action);
            HasPermission(RolePermissions(role), resource, action) <==>
              || OneOf(target, "customer", if role == "viewer" then {"read"} else {"create", "read"})
              || OneOf(target, "opportunity", {"read"})
              || (role == "viewer" && OneOf(target, "ticket", {"read"}))
  {
    DefaultsAreStarless();
    DefaultTargets();
    StarlessGrants(RolePermissions(role), resource, action);
  }

  /** A text and a star match whatever begins with the text. */
  lemma {:induction false} PrefixGlob(text: string, s: string)
    requires Starless(text) && '?' !in text
    ensures Glob(text + "*", s) <==> text <= s
  {
    var p := text + "*";
    if text == "" {
      assert p == "*";
      StarMatchesAll(s);
    } else {
      assert text[0] != '*' && text[0] != '?' && p[1..] == text[1..] + "*";
      if s != "" {
        PrefixGlob(text[1..], s[1..]);
        assert text <= s <==> text[0] == s[0] && text[1..] <= s[1..];
      }
    }
  }

  lemma SupportMay(resource: string, action: string)
    ensures var target := Target(resource, action);
            HasPermission(RolePermissions("support"), resource, action) <==>
              target == "customer:read" || target == "opportunity:read" || "ticket:" <= target
  {
    var perms, target := RolePermissions("support"), Target(resource, action);
    TableIsPlain("support");
    CheckMeansGlob(perms, resource, action);
    SupportGlobs(target);
  }

  lemma SupportGlobs(target: string)
    ensures Granted(RolePermissions("support"), target) <==>
              target == "customer:read" || target == "opportunity:read" || "ticket:" <= target
  {
    var perms := RolePermissions("support");
    var literals := ["customer:read", "opportunity:read", "ticket:read", "ticket:create", "ticket:update"];
    DefaultsAreStarless();
    DefaultsArePlain();
    forall p | p in literals ensures Glob(p, target) <==> p == target {
      assert p in DEFAULT_PERMISSIONS;
      LiteralMatchesOnlyItself(p, target);
    }
    assert Starless("ticket:") && '?' !in "ticket:" && "ticket:" + "*" == "ticket:*";
    PrefixGlob("ticket:", target);
    assert "ticket:" <= "ticket:read" && "ticket:" <= "ticket:create" && "ticket:" <= "ticket:update";
    assert perms == literals + ["ticket:*"];
    assert forall p :: p in perms <==> p in literals || p == "ticket:*";
    assert forall p :: p in literals ==> p in perms;
    if "ticket:" <= target { assert "ticket:*" in perms && Glob("ticket:*", target); }
    if target in literals { assert target in perms && Glob(target, target); }
  }
}
