/**
 * Template resolution of `bp-core-template-loader.php`: the candidate file names
 * of a template part, the first-match search of names over the template stack,
 * the clean-up of the template stack, the expansion of stacks into their
 * sub-locations, the query-template lookup and the theme-compat "template
 * included" flag. The file system is the set of paths that exist.
 */
module TemplateLoader {
  import opened Wrappers
  import opened PhpBuiltins

  // ---------------------------------------------------------------------------
  // Candidate names

  /** The candidates of `bp_get_template_part`: `slug-name.php` before `slug.php`
      when a name is given. */
  function TemplatePartCandidates(slug: string, name: Option<string>): (r: seq<string>)
    ensures |r| == if name.Some? then 2 else 1
    ensures r[|r| - 1] == slug + ".php"
    ensures name.Some? ==> r[0] == slug + "-" + name.value + ".php"
    ensures forall k :: 0 <= k < |r| ==> !IsEmpty(r[k])
  {
    if name.Some? then [slug + "-" + name.value + ".php", slug + ".php"] else [slug + ".php"]
  }

  /** The slug `bp_get_asset_template_part` hands on. */
  function AssetSlug(slug: string): (r: string)
    ensures |r| == |slug| + 7 && r[..7] == "assets/" && r[7..] == slug
  {
    "assets/" + slug
  }

  // ---------------------------------------------------------------------------
  // The search

  /** `trailingslashit(location) . name`. */
  function Path(location: string, name: string): string {
    Trailingslashit(location) + name
  }

  /** Whether `name` is found at `location`: both are non-empty and the file exists. */
  predicate Hit(name: string, location: string, files: set<string>) {
    !IsEmpty(name) && !IsEmpty(location) && Path(location, LtrimSlashes(name)) in files
  }

  /** The inner loop of the search: the first non-empty location holding `name`. */
  function FindIn(name: string, locations: seq<string>, files: set<string>): (r: Option<string>)
    ensures r.Some? ==> r.value in files
    decreases |locations|
  {
    if |locations| == 0 then None
    else if !IsEmpty(locations[0]) && Path(locations[0], name) in files then Some(Path(locations[0], name))
    else FindIn(name, locations[1..], files)
  }

  /** The whole search: names in the outer loop, locations in the inner loop. */
  function Locate(names: seq<string>, locations: seq<string>, files: set<string>): (r: Option<string>)
    ensures r.Some? ==> r.value in files
    decreases |names|
  {
    if |names| == 0 then None
    else if !IsEmpty(names[0]) && FindIn(LtrimSlashes(names[0]), locations, files).Some? then
      FindIn(LtrimSlashes(names[0]), locations, files)
    else Locate(names[1..], locations, files)
  }

  lemma {:induction false} FindInNone(name: string, locations: seq<string>, files: set<string>)
    requires forall j :: 0 <= j < |locations| ==> IsEmpty(locations[j]) || Path(locations[j], name) !in files
    ensures FindIn(name, locations, files) == None
    decreases |locations|
  {
    if |locations| > 0 {
      FindInNone(name, locations[1..], files);
    }
  }

  lemma {:induction false} FindInFirst(name: string, locations: seq<string>, files: set<string>, j: nat)
    requires j < |locations| && !IsEmpty(locations[j]) && Path(locations[j], name) in files
    requires forall k :: 0 <= k < j ==> IsEmpty(locations[k]) || Path(locations[k], name) !in files
    ensures FindIn(name, locations, files) == Some(Path(locations[j], name))
    decreases j
  {
    if j > 0 {
      FindInFirst(name, locations[1..], files, j - 1);
    }
  }

  lemma {:induction false} FindInSome(name: string, locations: seq<string>, files: set<string>)
    requires FindIn(name, locations, files).Some?
    ensures exists j :: 0 <= j < |locations| && !IsEmpty(locations[j]) && Path(locations[j], name) in files
    decreases |locations|
  {
    if !IsEmpty(locations[0]) && Path(locations[0], name) in files {
    } else {
      FindInSome(name, locations[1..], files);
      var j :| 0 <= j < |locations[1..]| && !IsEmpty(locations[1..][j]) && Path(locations[1..][j], name) in files;
      assert locations[1..][j] == locations[j + 1];
    }
  }

  /** The search finds nothing exactly when no (name, location) pair is a hit. */
  lemma {:induction false} LocateNoneIff(names: seq<string>, locations: seq<string>, files: set<string>)
    ensures Locate(names, locations, files) == None <==>
      forall i, j :: 0 <= i < |names| && 0 <= j < |locations| ==> !Hit(names[i], locations[j], files)
    decreases |names|
  {
    if |names| > 0 {
      LocateNoneIff(names[1..], locations, files);
      var name := LtrimSlashes(names[0]);
      if !IsEmpty(names[0]) && FindIn(name, locations, files).Some? {
        FindInSome(name, locations, files);
        var j :| 0 <= j < |locations| && !IsEmpty(locations[j]) && Path(locations[j], name) in files;
        assert Hit(names[0], locations[j], files);
      } else {
        if !IsEmpty(names[0]) {
          forall j | 0 <= j < |locations|
            ensures !Hit(names[0], locations[j], files)
          {
            if Hit(names[0], locations[j], files) {
              FindInHit(name, locations, files, j);
            }
          }
        }
        assert forall i :: 1 <= i < |names| ==> names[i] == names[1..][i - 1];
      }
    }
  }

  lemma FindInHit(name: string, locations: seq<string>, files: set<string>, j: nat)
    requires j < |locations| && !IsEmpty(locations[j]) && Path(locations[j], name) in files
    ensures FindIn(name, locations, files).Some?
    decreases j
  {
    if j > 0 && !(!IsEmpty(locations[0]) && Path(locations[0], name) in files) {
      FindInHit(name, locations[1..], files, j - 1);
    }
  }

  /** The search returns the hit that comes first with names in the outer loop:
      an earlier name wins even when a later name sits in an earlier location. */
  lemma {:induction false} LocateFirstHit(names: seq<string>, locations: seq<string>, files: set<string>, i: nat, j: nat)
    requires i < |names| && j < |locations| && Hit(names[i], locations[j], files)
    requires forall i', j' :: 0 <= i' < i && 0 <= j' < |locations| ==> !Hit(names[i'], locations[j'], files)
    requires forall j' :: 0 <= j' < j ==> !Hit(names[i], locations[j'], files)
    ensures Locate(names, locations, files) == Some(Path(locations[j], LtrimSlashes(names[i])))
    decreases i
  {
    if i == 0 {
      FindInFirst(LtrimSlashes(names[0]), locations, files, j);
    } else {
      if !IsEmpty(names[0]) {
        FindInNone(LtrimSlashes(names[0]), locations, files);
      }
      LocateFirstHit(names[1..], locations, files, i - 1, j);
    }
  }

  /** `bp_locate_template`: the nested search with its `break 2`, then loading
      when asked, allowed by the filter, and something was found. */
  method LocateTemplate(names: seq<string>, load: bool, allowLoad: bool, stack: seq<string>, files: set<string>)
    returns (located: Option<string>, loaded: bool)
    ensures located == Locate(names, stack, files)
    ensures loaded <==> allowLoad && load && located.Some?
  {
    located := None;
    loaded := false;
    if |names| == 0 {
      return;
    }
    var i := 0;
    label search:
    while i < |names|
      invariant 0 <= i <= |names|
      invariant located == None
      invariant Locate(names, stack, files) == Locate(names[i..], stack, files)
    {
      var name := names[i];
      if !IsEmpty(name) {
        var trimmed := LtrimSlashes(name);
        var j := 0;
        while j < |stack|
          invariant 0 <= j <= |stack|
          invariant located == None
          invariant FindIn(trimmed, stack, files) == FindIn(trimmed, stack[j..], files)
        {
          var location := stack[j];
          if !IsEmpty(location) && Path(location, trimmed) in files {
            located := Some(Path(location, trimmed));
            assert FindIn(trimmed, stack[j..], files) == located;
            assert names[i..][0] == name;
            break search;
          }
          assert stack[j..][1..] == stack[j + 1..];
          j := j + 1;
        }
      }
      assert names[i..][1..] == names[i + 1..];
      i := i + 1;
    }
    loaded := allowLoad && load && located.Some?;
  }

  /** `bp_get_template_part`: locate the candidates of `slug`/`name` and load. */
  method GetTemplatePart(slug: string, name: Option<string>, allowLoad: bool, stack: seq<string>, files: set<string>)
    returns (located: Option<string>, loaded: bool)
    ensures located == Locate(TemplatePartCandidates(slug, name), stack, files)
    ensures loaded <==> allowLoad && located.Some?
  {
    var templates := TemplatePartCandidates(slug, name);
    located, loaded := LocateTemplate(templates, true, allowLoad, stack, files);
  }

  /** `bp_get_asset_template_part`: a template part under `assets/`. */
  method GetAssetTemplatePart(slug: string, name: Option<string>, allowLoad: bool, stack: seq<string>, files: set<string>)
    returns (located: Option<string>, loaded: bool)
    ensures located == Locate(TemplatePartCandidates(AssetSlug(slug), name), stack, files)
    ensures loaded <==> allowLoad && located.Some?
  {
    located, loaded := GetTemplatePart(AssetSlug(slug), name, allowLoad, stack, files);
  }

  /** A template part prefers `slug-name.php` anywhere in the stack and falls back
      to `slug.php`. */
  lemma TemplatePartPrefersNamed(slug: string, name: string, stack: seq<string>, files: set<string>)
    ensures var named := FindIn(LtrimSlashes(slug + "-" + name + ".php"), stack, files);
      Locate(TemplatePartCandidates(slug, Some(name)), stack, files) ==
        if named.Some? then named else FindIn(LtrimSlashes(slug + ".php"), stack, files)
  {
    var names := TemplatePartCandidates(slug, Some(name));
    var rest := names[1..];
    assert rest == [slug + ".php"] && rest[1..] == [];
    assert Locate(rest, stack, files) == FindIn(LtrimSlashes(slug + ".php"), stack, files);
  }

  // ---------------------------------------------------------------------------
  // The template stack

  /** `array_filter` on strings: drops the PHP-empty entries, keeping the order. */
  function NonEmptyOnly(s: seq<string>): (r: seq<string>)
    ensures forall x :: x in r <==> x in s && !IsEmpty(x)
    decreases |s|
  {
    if |s| == 0 then []
    else
      var init := NonEmptyOnly(s[..|s| - 1]);
      assert s == s[..|s| - 1] + [s[|s| - 1]];
      if IsEmpty(s[|s| - 1]) then init else init + [s[|s| - 1]]
  }

  /** The clean-up step of `bp_get_template_stack` over the locations the stack
      callbacks pushed, in order. */
  function TemplateStack(pushed: seq<string>): seq<string> {
    Unique(NonEmptyOnly(pushed))
  }

  /** The cleaned stack holds every non-empty pushed location exactly once. */
  lemma TemplateStackSpec(pushed: seq<string>)
    ensures forall x :: x in TemplateStack(pushed) <==> x in pushed && !IsEmpty(x)
    ensures NoDuplicates(TemplateStack(pushed))
  {
    UniqueSpec(NonEmptyOnly(pushed));
  }

  // ---------------------------------------------------------------------------
  // Sub-locations of the stack

  /** `bp_get_template_locations`. */
  function TemplateLocations(): seq<string> {
    ["buddypress", "community", ""]
  }

  /** `untrailingslashit(trailingslashit(stack) . location)`. */
  function Combine(stack: string, location: string): string {
    Untrailingslashit(Trailingslashit(stack) + location)
  }

  function Row(stack: string, locations: seq<string>): (r: seq<string>)
    ensures |r| == |locations| && forall j :: 0 <= j < |locations| ==> r[j] == Combine(stack, locations[j])
  {
    seq(|locations|, j requires 0 <= j < |locations| => Combine(stack, locations[j]))
  }

  /** Every stack combined with every location, stack-major. */
  function Expand(stacks: seq<string>, locations: seq<string>): (r: seq<string>)
    decreases |stacks|
  {
    if |stacks| == 0 then []
    else Expand(stacks[..|stacks| - 1], locations) + Row(stacks[|stacks| - 1], locations)
  }

  lemma {:induction false} ExpandLength(stacks: seq<string>, locations: seq<string>)
    ensures |Expand(stacks, locations)| == |stacks| * |locations|
    decreases |stacks|
  {
    if |stacks| > 0 {
      ExpandLength(stacks[..|stacks| - 1], locations);
    }
  }

  /** Entry `i * |locations| + j` of the expansion combines stack `i` with location `j`. */
  lemma {:induction false} ExpandIndex(stacks: seq<string>, locations: seq<string>, i: nat, j: nat)
    requires i < |stacks| && j < |locations|
    ensures i * |locations| + j < |Expand(stacks, locations)|
    ensures Expand(stacks, locations)[i * |locations| + j] == Combine(stacks[i], locations[j])
    decreases |stacks|
  {
    var n := |stacks|;
    var prefix := stacks[..n - 1];
    ExpandLength(prefix, locations);
    ExpandLength(stacks, locations);
    if i < n - 1 {
      ExpandIndex(prefix, locations, i, j);
    } else {
      assert i * |locations| == |Expand(prefix, locations)|;
    }
  }

  /** `bp_add_template_stack_locations`: the nested loops, then `array_unique`. */
  method AddTemplateStackLocations(stacks: seq<string>) returns (r: seq<string>)
    ensures r == Unique(Expand(stacks, TemplateLocations()))
  {
    var retval: seq<string> := [];
    var locations := TemplateLocations();
    for i := 0 to |stacks|
      invariant retval == Expand(stacks[..i], locations)
    {
      var stack := stacks[i];
      for j := 0 to |locations|
        invariant retval == Expand(stacks[..i], locations) + Row(stack, locations)[..j]
      {
        retval := retval + [Combine(stack, locations[j])];
        assert Row(stack, locations)[..j + 1] == Row(stack, locations)[..j] + [Combine(stack, locations[j])];
      }
      assert stacks[..i + 1][..i] == stacks[..i];
    }
    assert stacks[..|stacks|] == stacks;
    r := Unique(retval);
  }

  lemma UntrailingslashitIdempotent(s: string)
    ensures Untrailingslashit(Untrailingslashit(s)) == Untrailingslashit(s)
  {
    UntrailingslashitNoSlash(Untrailingslashit(s));
  }

  /** The empty location combines a stack into the stack itself, untrailed. */
  lemma CombineEmpty(stack: string)
    ensures Combine(stack, "") == Untrailingslashit(stack)
  {
    var u := Untrailingslashit(stack);
    assert Trailingslashit(stack) + "" == u + "/";
    assert (u + "/")[..|u + "/"| - 1] == u;
    UntrailingslashitIdempotent(stack);
  }

  /** A named location is appended under the untrailed stack. */
  lemma CombineNamed(stack: string, location: string)
    requires |location| > 0 && !IsSlash(location[|location| - 1])
    ensures Combine(stack, location) == Untrailingslashit(stack) + "/" + location
  {
    UntrailingslashitAppend(Untrailingslashit(stack) + "/", location);
  }

  /** A named location lands, under its stack, at its place in the expansion. */
  lemma NamedAt(stacks: seq<string>, locations: seq<string>, i: nat, j: nat, name: string)
    requires i < |stacks| && j < |locations| && locations[j] == name
    requires |name| > 0 && !IsSlash(name[|name| - 1])
    ensures i * |locations| + j < |Expand(stacks, locations)|
    ensures Expand(stacks, locations)[i * |locations| + j] == Untrailingslashit(stacks[i]) + ("/" + name)
  {
    ExpandIndex(stacks, locations, i, j);
    CombineNamed(stacks[i], name);
    var u := Untrailingslashit(stacks[i]);
    assert u + "/" + name == u + ("/" + name);
  }

  lemma SlashNames()
    ensures "/" + "buddypress" == "/buddypress" && "/" + "community" == "/community"
  {
  }

  /** Before de-duplication every stack contributes, in stack-major order,
      `stack/buddypress`, `stack/community` and the stack itself. */
  lemma StackLocationsOrder(stacks: seq<string>, i: nat)
    requires i < |stacks|
    ensures var e := Expand(stacks, TemplateLocations());
      3 * i + 2 < |e| &&
      e[3 * i] == Untrailingslashit(stacks[i]) + "/buddypress" &&
      e[3 * i + 1] == Untrailingslashit(stacks[i]) + "/community" &&
      e[3 * i + 2] == Untrailingslashit(stacks[i])
  {
    var locations := TemplateLocations();
    var e := Expand(stacks, locations);
    var u := Untrailingslashit(stacks[i]);
    assert |locations| == 3;
    assert i * |locations| == 3 * i;
    SlashNames();
    NamedAt(stacks, locations, i, 0, "buddypress");
    NamedAt(stacks, locations, i, 1, "community");
    assert 3 * i + 2 < |e| && e[3 * i + 2] == u by {
      ExpandIndex(stacks, locations, i, 2);
      CombineEmpty(stacks[i]);
    }
  }

  /** After de-duplication each of those appears exactly once. */
  lemma StackLocationsMembers(stacks: seq<string>, i: nat)
    requires i < |stacks|
    ensures var r := Unique(Expand(stacks, TemplateLocations()));
      NoDuplicates(r) &&
      Untrailingslashit(stacks[i]) + "/buddypress" in r &&
      Untrailingslashit(stacks[i]) + "/community" in r &&
      Untrailingslashit(stacks[i]) in r
  {
    var e := Expand(stacks, TemplateLocations());
    StackLocationsOrder(stacks, i);
    assert e[3 * i] in e && e[3 * i + 1] in e && e[3 * i + 2] in e;
    UniqueSpec(e);
  }

  // ---------------------------------------------------------------------------
  // Query templates

  predicate TypeChar(c: char) {
    'a' <= c <= 'z' || '0' <= c <= '9' || c == '-'
  }

  /** `preg_replace('|[^a-z0-9-]+|', '', type)`. */
  function SanitizeType(t: string): (r: string)
    ensures forall k :: 0 <= k < |r| ==> TypeChar(r[k])
    ensures |r| <= |t|
    decreases |t|
  {
    if |t| == 0 then ""
    else (if TypeChar(t[0]) then [t[0]] else "") + SanitizeType(t[1..])
  }

  /** Sanitising works character by character: it distributes over concatenation... */
  lemma {:induction false} SanitizeTypeConcat(a: string, b: string)
    ensures SanitizeType(a + b) == SanitizeType(a) + SanitizeType(b)
    decreases |a|
  {
    if |a| > 0 {
      var head := if TypeChar(a[0]) then [a[0]] else "";
      assert (a + b)[0] == a[0] && (a + b)[1..] == a[1..] + b;
      calc {
        SanitizeType(a + b);
        head + SanitizeType(a[1..] + b);
        { SanitizeTypeConcat(a[1..], b); }
        head + (SanitizeType(a[1..]) + SanitizeType(b));
        (head + SanitizeType(a[1..])) + SanitizeType(b);
        SanitizeType(a) + SanitizeType(b);
      }
    } else {
      assert a + b == b;
    }
  }

  /** ... keeps every allowed character and nothing else. */
  lemma {:induction false} SanitizeTypeKeeps(t: string)
    ensures (forall k :: 0 <= k < |t| ==> TypeChar(t[k])) <==> SanitizeType(t) == t
    decreases |t|
  {
    if |t| > 0 {
      SanitizeTypeKeeps(t[1..]);
      if !TypeChar(t[0]) {
        assert |SanitizeType(t)| <= |t[1..]| < |t|;
      }
    }
  }

  /** The candidates of `bp_get_query_template`: the given ones, or `<type>.php`. */
  function QueryCandidates(kind: string, templates: seq<string>): (r: seq<string>)
    ensures |templates| == 0 ==> r == [SanitizeType(kind) + ".php"]
    ensures |templates| != 0 ==> r == templates
  {
    if |templates| == 0 then [SanitizeType(kind) + ".php"] else templates
  }

  /** `bp_get_query_template`: locate the candidates without loading; a block
      theme falls back to the template canvas when nothing (or the theme's
      index) was found. */
  method QueryTemplate(kind: string, templates: seq<string>, stack: seq<string>, files: set<string>,
                       isBlockTheme: bool, themeIndex: string, canvas: string)
    returns (template: Option<string>)
    ensures var found := Locate(QueryCandidates(kind, templates), stack, files);
      template == if isBlockTheme && (found == None || found == Some(themeIndex)) then Some(canvas) else found
  {
    var candidates := QueryCandidates(kind, templates);
    var loaded;
    template, loaded := LocateTemplate(candidates, false, true, stack, files);
    if isBlockTheme && (template == None || template == Some(themeIndex)) {
      template := Some(canvas);
    }
  }

  // ---------------------------------------------------------------------------
  // The "template included" flag

  /** The `found_template` slot of the theme-compat state. */
  class ThemeCompat {
    var foundTemplate: Option<string>

    constructor ()
      ensures foundTemplate == None
    {
      foundTemplate := None;
    }

    /** `bp_set_template_included`: records the template and returns it. */
    method SetTemplateIncluded(template: Option<string>) returns (r: Option<string>)
      modifies this
      ensures foundTemplate == template && r == template
    {
      foundTemplate := template;
      r := foundTemplate;
    }

    /** `bp_is_template_included`. */
    method IsTemplateIncluded() returns (b: bool)
      ensures b <==> foundTemplate.Some? && !IsEmpty(foundTemplate.value)
    {
      b := foundTemplate.Some? && !IsEmpty(foundTemplate.value);
    }
  }
}
