/** The Configure Repo page (public/pages/repo-config.tsx): the suggested repository name, the
    team search, the selected-team list with its permissions, the choice of connection and
    owner, and when "Next" is enabled. Each request is reduced to its outcome, passed in as a
    parameter. */
module RepoConfig {
  import opened Wrappers
  import opened JsText
  import JsArray
  import Connections

  datatype TeamOption = TeamOption(slug: string, name: string)

  datatype Permission = Admin | Maintain | Push | Triage | Read

  datatype SelectedTeam = SelectedTeam(slug: string, name: string, permission: Permission)

  datatype OwnerKind = User | Org

  /** A user or organisation the connection can create repositories for. */
  datatype OwnerItem = OwnerItem(kind: OwnerKind, login: string, name: Option<string>, avatar: Option<string>)

  // ---------------------------------------------------------------------------
  // suggestRepoName

  /** The class `[A-Za-z0-9_-]`; the `-` at its end is a literal hyphen. */
  predicate IsRepoNameChar(c: char) {
    ('A' <= c <= 'Z') || ('a' <= c <= 'z') || ('0' <= c <= '9') || c == '_' || c == '-'
  }

  /** `replace(/[^A-Za-z0-9_-]/g, "")`. */
  function Sanitize(s: string): string {
    JsArray.Filter(s, IsRepoNameChar)
  }

  const RepoPrefix := "Helm-"

  /** `suggestRepoName`: "Helm-" followed only by characters of `[A-Za-z0-9_-]`. */
  function SuggestRepoName(app: string): (r: string)
    ensures StartsWith(r, RepoPrefix)
    ensures forall i :: |RepoPrefix| <= i < |r| ==> IsRepoNameChar(r[i])
  {
    if app == "" then RepoPrefix
    else RepoPrefix + Sanitize(ReplaceSpaceRuns(Trim(app), "-"))
  }

  /** Each word sanitized on its own. */
  function SanitizeAll(words: seq<string>): (r: seq<string>)
    ensures |r| == |words|
  {
    seq(|words|, i requires 0 <= i < |words| => Sanitize(words[i]))
  }

  /** Sanitizing keeps the hyphens, so it can be done word by word. */
  lemma {:induction false} SanitizeJoin(words: seq<string>)
    ensures Sanitize(Join(words, "-")) == Join(SanitizeAll(words), "-")
    decreases |words|
  {
    if |words| >= 2 {
      var rest := words[1..];
      SanitizeJoin(rest);
      JsArray.FilterConcat(words[0] + "-", Join(rest, "-"), IsRepoNameChar);
      JsArray.FilterConcat(words[0], "-", IsRepoNameChar);
      assert Sanitize("-") == "-" by {
        assert "-"[1..] == [];
      }
      assert SanitizeAll(words)[1..] == SanitizeAll(rest);
    }
  }

  /** The suggestion is "Helm-" and then the words of the app name, each with the characters
      outside `[A-Za-z0-9_-]` removed, joined by single hyphens: whitespace at either end
      contributes nothing and each inner run of whitespace becomes exactly one `-`. */
  lemma SuggestRepoNameWords(app: string)
    ensures SuggestRepoName(app) == RepoPrefix + Join(SanitizeAll(Words(app)), "-")
  {
    if app != "" {
      TrimThenReplace(app, "-");
      SanitizeJoin(Words(app));
    }
  }

  /** An empty or all-whitespace app name suggests exactly "Helm-". */
  lemma SuggestRepoNameBlank(app: string)
    requires AllSpace(app)
    ensures SuggestRepoName(app) == RepoPrefix
  {
    TrimStartOfSpaces(app);
    SuggestRepoNameWords(app);
  }

  /** A non-empty word made of `[A-Za-z0-9_-]` only. */
  predicate IsRepoNameWord(w: string) {
    w != [] && forall j :: 0 <= j < |w| ==> IsRepoNameChar(w[j])
  }

  /** Already-clean words typed with single spaces come back joined by hyphens. */
  lemma SuggestRepoNameOfWords(ws: seq<string>)
    requires forall i :: 0 <= i < |ws| ==> IsRepoNameWord(ws[i])
    ensures SuggestRepoName(Join(ws, " ")) == RepoPrefix + Join(ws, "-")
  {
    assert AreWords(ws);
    WordsOfJoin(ws);
    SuggestRepoNameWords(Join(ws, " "));
    forall i | 0 <= i < |ws| ensures Sanitize(ws[i]) == ws[i] {
      JsArray.FilterKeepsAll(ws[i], IsRepoNameChar);
    }
    assert SanitizeAll(ws) == ws;
  }

  /** The placeholder of the repository-name field, `Helm-booking-service`, is what the
      suggestion gives for the app name "booking service". */
  lemma SuggestRepoNameExample(app: string)
    requires app == "booking service"
    ensures SuggestRepoName(app) == "Helm-booking-service"
  {
    var ws := ["booking", "service"];
    assert IsRepoNameWord(ws[0]);
    assert IsRepoNameWord(ws[1]);
    SuggestRepoNameOfWords(ws);
    assert Join(ws, " ") == app by {
      assert Join(ws[1..], " ") == "service";
    }
    assert Join(ws, "-") == "booking-service" by {
      assert Join(ws[1..], "-") == "service";
    }
  }

  // ---------------------------------------------------------------------------
  // filteredTeams

  /** `(t.name + t.slug).toLowerCase().includes(q)`, for a lowered query `q`. */
  predicate TeamMatches(t: TeamOption, q: string) {
    Includes(Lower(t.name + t.slug), q)
  }

  /** The `filteredTeams` memo. */
  function FilterTeams(teams: seq<TeamOption>, query: string): (r: seq<TeamOption>)
    ensures query == "" ==> r == teams
  {
    if query == "" then teams
    else
      var q := Lower(query);
      JsArray.Filter(teams, (t: TeamOption) => TeamMatches(t, q))
  }

  /** With a query, the filter keeps, in their order, exactly the teams whose lowered name and
      slug contain the lowered query. */
  lemma FilterTeamsMeaning(teams: seq<TeamOption>, query: string)
    requires query != ""
    ensures forall t :: t in FilterTeams(teams, query) <==>
      t in teams && Includes(Lower(t.name + t.slug), Lower(query))
    ensures JsArray.IsSubsequence(FilterTeams(teams, query), teams)
    ensures forall t ::
      multiset(FilterTeams(teams, query))[t] == if Includes(Lower(t.name + t.slug), Lower(query)) then multiset(teams)[t] else 0
  {
    var q := Lower(query);
    var p := (t: TeamOption) => TeamMatches(t, q);
    JsArray.FilterMultiset(teams, p);
    forall t ensures t in FilterTeams(teams, query) <==> t in teams && TeamMatches(t, q) {
      JsArray.FilterMembers(teams, p, t);
    }
    JsArray.FilterIsSubsequence(teams, p);
  }

  // ---------------------------------------------------------------------------
  // addTeam, removeTeam, updatePermission

  function SlugOf(x: SelectedTeam): string {
    x.slug
  }

  /** No two selected teams share a slug. */
  ghost predicate UniqueSlugs(sel: seq<SelectedTeam>) {
    JsArray.DistinctBy(sel, SlugOf)
  }

  /** `selectedTeams.some((x) => x.slug === slug)`. */
  predicate HasSlug(sel: seq<SelectedTeam>, slug: string) {
    JsArray.Any(sel, (x: SelectedTeam) => x.slug == slug)
  }

  /** The permission listed for `slug`: that of the first entry with it. */
  function PermissionOf(sel: seq<SelectedTeam>, slug: string): (r: Option<Permission>)
    ensures r.Some? <==> HasSlug(sel, slug)
  {
    var test := (x: SelectedTeam) => x.slug == slug;
    JsArray.AnyIffFound(sel, test);
    match JsArray.FindIndex(sel, test)
    case Some(i) => Some(sel[i].permission)
    case None => None
  }

  /** `addTeam(t)`. */
  function WithTeam(sel: seq<SelectedTeam>, t: TeamOption): seq<SelectedTeam> {
    if HasSlug(sel, t.slug) then sel else sel + [SelectedTeam(t.slug, t.name, Maintain)]
  }

  /** `removeTeam(slug)`. */
  function WithoutTeam(sel: seq<SelectedTeam>, slug: string): seq<SelectedTeam> {
    JsArray.Filter(sel, (x: SelectedTeam) => x.slug != slug)
  }

  /** `updatePermission(slug, p)`. */
  function WithPermission(sel: seq<SelectedTeam>, slug: string, p: Permission): seq<SelectedTeam> {
    seq(|sel|, i requires 0 <= i < |sel| => if sel[i].slug == slug then sel[i].(permission := p) else sel[i])
  }

  /** Adding a team leaves the existing entries alone, adds at most one entry, at the end, and
      only for a slug not yet selected, whose permission is then "maintain"; slugs stay unique. */
  lemma AddTeamSpec(sel: seq<SelectedTeam>, t: TeamOption)
    ensures sel <= WithTeam(sel, t) && |WithTeam(sel, t)| <= |sel| + 1
    ensures HasSlug(sel, t.slug) ==> WithTeam(sel, t) == sel
    ensures HasSlug(WithTeam(sel, t), t.slug)
    ensures !HasSlug(sel, t.slug) ==> PermissionOf(WithTeam(sel, t), t.slug) == Some(Maintain)
    ensures !HasSlug(sel, t.slug) ==> WithTeam(sel, t)[|sel|].slug == t.slug && WithTeam(sel, t)[|sel|].name == t.name
    ensures UniqueSlugs(sel) ==> UniqueSlugs(WithTeam(sel, t))
  {
    var r := WithTeam(sel, t);
    if !HasSlug(sel, t.slug) {
      assert r[|sel|].slug == t.slug;
      var f := JsArray.FindIndex(r, (x: SelectedTeam) => x.slug == t.slug);
      assert f == Some(|sel|);
      if UniqueSlugs(sel) {
        forall i, j | 0 <= i < j < |r| ensures SlugOf(r[i]) != SlugOf(r[j]) {
          if j == |sel| {
            assert r[i] == sel[i];
          } else {
            assert r[i] == sel[i] && r[j] == sel[j];
          }
        }
      }
    }
  }

  /** Removing a team drops exactly the entries with that slug and keeps the rest in order;
      slugs stay unique. */
  lemma RemoveTeamSpec(sel: seq<SelectedTeam>, slug: string)
    ensures !HasSlug(WithoutTeam(sel, slug), slug)
    ensures forall x :: x in WithoutTeam(sel, slug) <==> x in sel && x.slug != slug
    ensures JsArray.IsSubsequence(WithoutTeam(sel, slug), sel)
    ensures forall x :: multiset(WithoutTeam(sel, slug))[x] == if x.slug != slug then multiset(sel)[x] else 0
    ensures UniqueSlugs(sel) ==> UniqueSlugs(WithoutTeam(sel, slug))
  {
    var p := (x: SelectedTeam) => x.slug != slug;
    JsArray.FilterMultiset(sel, p);
    forall x ensures x in WithoutTeam(sel, slug) <==> x in sel && x.slug != slug {
      JsArray.FilterMembers(sel, p, x);
    }
    JsArray.FilterIsSubsequence(sel, p);
    if UniqueSlugs(sel) {
      JsArray.FilterKeepsDistinct(sel, p, SlugOf);
    }
  }

  /** Updating a permission keeps length, order, slugs and names; only the entry with the slug
      changes, and only its permission, which a lookup then returns; slugs stay unique. */
  lemma UpdatePermissionSpec(sel: seq<SelectedTeam>, slug: string, p: Permission)
    ensures |WithPermission(sel, slug, p)| == |sel|
    ensures forall i :: 0 <= i < |sel| ==>
      WithPermission(sel, slug, p)[i].slug == sel[i].slug && WithPermission(sel, slug, p)[i].name == sel[i].name
    ensures forall i :: 0 <= i < |sel| && sel[i].slug != slug ==> WithPermission(sel, slug, p)[i] == sel[i]
    ensures PermissionOf(WithPermission(sel, slug, p), slug) == if HasSlug(sel, slug) then Some(p) else None
    ensures forall other :: other != slug ==> PermissionOf(WithPermission(sel, slug, p), other) == PermissionOf(sel, other)
    ensures UniqueSlugs(sel) ==> UniqueSlugs(WithPermission(sel, slug, p))
  {
    var r := WithPermission(sel, slug, p);
    var test := (x: SelectedTeam) => x.slug == slug;
    JsArray.FindIndexAgrees(r, test, sel, test);
    forall other | other != slug
      ensures PermissionOf(r, other) == PermissionOf(sel, other)
    {
      var t := (x: SelectedTeam) => x.slug == other;
      JsArray.FindIndexAgrees(r, t, sel, t);
    }
    if UniqueSlugs(sel) {
      forall i, j | 0 <= i < j < |r| ensures SlugOf(r[i]) != SlugOf(r[j]) {
        assert SlugOf(sel[i]) != SlugOf(sel[j]);
      }
    }
  }

  // ---------------------------------------------------------------------------
  // The initial connection

  /** `items.find((x) => x.default) || items[0]`, as a position: the first flagged item, else
      the first item, else none. */
  function InitialConnection(items: seq<Connections.ConnectionItem>): (r: Option<nat>)
    ensures r.None? <==> items == []
    ensures r.Some? ==> r.value < |items|
    ensures r.Some? ==> forall j :: 0 <= j < r.value ==> !Connections.IsFlaggedDefault(items[j])
    ensures r.Some? ==>
      (Connections.IsFlaggedDefault(items[r.value]) ||
       (r.value == 0 && forall j :: 0 <= j < |items| ==> !Connections.IsFlaggedDefault(items[j])))
  {
    match JsArray.FindIndex(items, Connections.IsFlaggedDefault)
    case Some(i) => Some(i)
    case None => if items == [] then None else Some(0)
  }

  /** Once the Connection Center has made `id` the default, this page starts on the first
      connection with that id. */
  lemma InitialConnectionAfterSetDefault(items: seq<Connections.ConnectionItem>, id: string, k: nat)
    requires k < |items| && items[k].id == id
    requires forall j :: 0 <= j < k ==> items[j].id != id
    ensures InitialConnection(Connections.MarkDefault(items, id)) == Some(k)
  {
    var marked := Connections.MarkDefault(items, id);
    Connections.MarkDefaultFlags(items, id);
    var r := InitialConnection(marked);
    assert Connections.IsFlaggedDefault(marked[k]);
    assert r.value <= k;
    assert Connections.IsFlaggedDefault(marked[r.value]);
  }

  // ---------------------------------------------------------------------------
  // The page

  /** The page's state: the `useState` fields of `RepoConfig` (the `checking` flag aside). */
  class RepoConfigPage {
    var connections: seq<Connections.ConnectionItem>
    var connectionId: string
    var owners: seq<OwnerItem>
    var owner: string
    var ownerType: Option<OwnerKind>
    var appName: string
    var repoName: string
    var useSuggestion: bool
    var repoExists: Option<bool>
    var teams: seq<TeamOption>
    var teamQuery: string
    var selectedTeams: seq<SelectedTeam>

    ghost predicate Valid()
      reads this
    {
      UniqueSlugs(selectedTeams)
    }

    /** The initial state once mounted: the suggestion effect has already written "Helm-". */
    constructor ()
      ensures Valid()
      ensures connections == [] && connectionId == "" && owners == [] && owner == ""
      ensures ownerType == None && appName == "" && repoName == RepoPrefix && useSuggestion
      ensures repoExists == None && teams == [] && teamQuery == "" && selectedTeams == []
    {
      connections := [];
      connectionId := "";
      owners := [];
      owner := "";
      ownerType := None;
      appName := "";
      repoName := SuggestRepoName("");
      useSuggestion := true;
      repoExists := None;
      teams := [];
      teamQuery := "";
      selectedTeams := [];
    }

    /** The mount effect: the saved connections, and the initial pick among them. `None` is a
        failed request, which changes nothing. */
    method LoadConnections(listed: Option<seq<Connections.ConnectionItem>>)
      modifies this`connections, this`connectionId
      ensures listed.None? ==> connections == old(connections) && connectionId == old(connectionId)
      ensures listed.Some? ==> connections == listed.value
      ensures listed.Some? ==>
        (connectionId ==
           match InitialConnection(listed.value)
           case Some(i) => listed.value[i].id
           case None => old(connectionId))
    {
      if listed.Some? {
        connections := listed.value;
        var pick := InitialConnection(listed.value);
        if pick.Some? {
          connectionId := listed.value[pick.value].id;
        }
      }
    }

    /** Choosing a connection in the select. */
    method SelectConnection(id: string)
      modifies this`connectionId
      ensures connectionId == id
    {
      connectionId := id;
    }

    /** The effect on a new connection: its owners, the first of which becomes the owner. */
    method LoadOwners(listed: Option<seq<OwnerItem>>)
      modifies this`owners, this`owner, this`ownerType
      ensures connectionId == "" || listed.None? ==>
        owners == old(owners) && owner == old(owner) && ownerType == old(ownerType)
      ensures connectionId != "" && listed.Some? ==> owners == listed.value
      ensures connectionId != "" && listed.Some? && listed.value != [] ==>
        owner == listed.value[0].login && ownerType == Some(listed.value[0].kind)
      ensures connectionId != "" && listed.Some? && listed.value == [] ==>
        owner == old(owner) && ownerType == old(ownerType)
    {
      if connectionId == "" || listed.None? {
        return;
      }
      owners := listed.value;
      if |listed.value| > 0 {
        owner := listed.value[0].login;
        ownerType := Some(listed.value[0].kind);
      }
    }

    /** The effect on a new organisation owner: its teams. */
    method LoadTeams(listed: Option<seq<TeamOption>>)
      modifies this`teams
      ensures teams == if connectionId != "" && owner != "" && ownerType == Some(Org) && listed.Some?
                       then listed.value else old(teams)
    {
      if connectionId == "" || owner == "" || ownerType != Some(Org) {
        return;
      }
      if listed.Some? {
        teams := listed.value;
      }
    }

    /** Choosing an owner in the select: its type comes from the matching owner, or is "" when
        none matches, and the selected teams are reset. */
    method ChangeOwner(login: string)
      requires Valid()
      modifies this`owner, this`ownerType, this`selectedTeams
      ensures Valid()
      ensures owner == login && selectedTeams == []
      ensures (exists i :: 0 <= i < |owners| && owners[i].login == login) <==> ownerType.Some?
      ensures ownerType.Some? ==>
        (exists i :: 0 <= i < |owners| && owners[i].login == login &&
           ownerType == Some(owners[i].kind) && forall j :: 0 <= j < i ==> owners[j].login != login)
    {
      owner := login;
      selectedTeams := [];
      var found := JsArray.FindIndex(owners, (o: OwnerItem) => o.login == login);
      ownerType := if found.Some? then Some(owners[found.value].kind) else None;
      if found.Some? {
        assert owners[found.value].login == login;
      } else {
        assert forall i :: 0 <= i < |owners| ==> owners[i].login != login;
      }
    }

    /** Typing the app name; the suggestion effect rewrites the repository name while the
        suggestion is in use. */
    method EditAppName(name: string)
      modifies this`appName, this`repoName
      ensures appName == name
      ensures repoName == if useSuggestion then SuggestRepoName(name) else old(repoName)
    {
      appName := name;
      if useSuggestion {
        repoName := SuggestRepoName(name);
      }
    }

    /** Typing the repository name stops using the suggestion. */
    method EditRepoName(name: string)
      modifies this`repoName, this`useSuggestion
      ensures repoName == name && !useSuggestion
    {
      repoName := name;
      useSuggestion := false;
    }

    /** The "use suggested name" checkbox; ticking it brings the suggestion back. */
    method SetUseSuggestion(on: bool)
      modifies this`useSuggestion, this`repoName
      ensures useSuggestion == on
      ensures repoName == if on then SuggestRepoName(appName) else old(repoName)
    {
      useSuggestion := on;
      if on {
        repoName := SuggestRepoName(appName);
      }
    }

    /** The availability effect: with owner, name and connection all set, the server's answer
        (`None` when the request failed); otherwise unknown. */
    method CheckAvailability(answer: Option<bool>)
      modifies this`repoExists
      ensures repoExists == if owner == "" || repoName == "" || connectionId == "" then None else answer
    {
      if owner == "" || repoName == "" || connectionId == "" {
        repoExists := None;
        return;
      }
      repoExists := answer;
    }

    method SetTeamQuery(query: string)
      modifies this`teamQuery
      ensures teamQuery == query
    {
      teamQuery := query;
    }

    /** `addTeam(t)`. */
    method AddTeam(t: TeamOption)
      requires Valid()
      modifies this`selectedTeams
      ensures Valid()
      ensures selectedTeams == WithTeam(old(selectedTeams), t)
    {
      AddTeamSpec(selectedTeams, t);
      if HasSlug(selectedTeams, t.slug) {
        return;
      }
      selectedTeams := selectedTeams + [SelectedTeam(t.slug, t.name, Maintain)];
    }

    /** `removeTeam(slug)`. */
    method RemoveTeam(slug: string)
      requires Valid()
      modifies this`selectedTeams
      ensures Valid()
      ensures selectedTeams == WithoutTeam(old(selectedTeams), slug)
    {
      RemoveTeamSpec(selectedTeams, slug);
      selectedTeams := WithoutTeam(selectedTeams, slug);
    }

    /** `updatePermission(slug, p)`. */
    method UpdatePermission(slug: string, p: Permission)
      requires Valid()
      modifies this`selectedTeams
      ensures Valid()
      ensures selectedTeams == WithPermission(old(selectedTeams), slug, p)
    {
      UpdatePermissionSpec(selectedTeams, slug, p);
      selectedTeams := WithPermission(selectedTeams, slug, p);
    }

    /** "Next" is enabled: connection, owner and name set, and the name not known to be taken. */
    predicate NextEnabled()
      reads this
    {
      connectionId != "" && owner != "" && repoName != "" && repoExists != Some(true)
    }
  }
}
