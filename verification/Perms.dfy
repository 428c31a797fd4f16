/** Permissions and wildcards: internal/shared/perms. */
module Perms {

  /** perms.Can */
  predicate Can(granted: seq<string>, required: string) {
    required == "" || exists i | 0 <= i < |granted| :: Grants(granted[i], required)
  }

  predicate Grants(g: string, required: string) {
    || g == "*" || g == required
    || (|g| >= 2 && g[|g| - 2..] == ".*" && g[..|g| - 1] <= required)
  }

  /** A grant ending in a dot and a star covers what begins with the same stem and dot. */
  ghost predicate Covers(stem: string, g: string, required: string) {
    g == stem + ".*" && exists rest: string :: required == stem + "." + rest
  }

  /** Nothing is needed, or some grant is the star, the permission itself, or a wildcard over it. */
  lemma CanMeans(granted: seq<string>, required: string)
    ensures Can(granted, required) <==>
            required == "" || "*" in granted || required in granted
            || exists g, stem :: g in granted && Covers(stem, g, required)
  {
    forall g | g in granted
      ensures Grants(g, required) <==> g == "*" || g == required || exists stem :: Covers(stem, g, required)
    {
      GrantMeans(g, required);
    }
    if i :| 0 <= i < |granted| && Grants(granted[i], required) {
      assert granted[i] in granted;
    }
  }

  lemma GrantMeans(g: string, required: string)
    ensures Grants(g, required) <==> g == "*" || g == required || exists stem :: Covers(stem, g, required)
  {
    if |g| >= 2 && g[|g| - 2..] == ".*" && g[..|g| - 1] <= required {
      var stem, rest := g[..|g| - 2], required[|g| - 1..];
      assert g == stem + ".*" && required == stem + "." + rest;
      assert Covers(stem, g, required);
    }
    if stem :| Covers(stem, g, required) {
      var rest :| required == stem + "." + rest;
      assert g[..|g| - 1] == stem + "." && g[|g| - 2..] == ".*";
    }
  }
}
