/** Who may read a knowledge-graph entity, in Python and pushed down into SQL. */
module ReadAccess {
  import opened Collections
  import opened Text
  import opened LikePattern
  import opened Rbac

  datatype Scope = Personal | Org

  datatype Entity = Entity(id: string, kind: string, name: string, content: string,
                           acl: seq<string>, scope: Scope)

  function Ids(rows: seq<Entity>): (ids: seq<string>)
    ensures |ids| == |rows|
    ensures forall i | 0 <= i < |rows| :: ids[i] == rows[i].id
  {
    seq(|rows|, i requires 0 <= i < |rows| => rows[i].id)
  }

  const IDENTITY_ACL_PREFIX := "kg:read:user:"

  function IdentityAcl(userId: string): string {
    IDENTITY_ACL_PREFIX + userId
  }

  predicate IsIdentity(entry: string) {
    IDENTITY_ACL_PREFIX <= entry
  }

  /** One ACL entry: an identity entry answers only to its own user, any other to the policy. */
  predicate EntryGrants(principal: Option<Principal>, entry: string, granted: set<string>) {
    if IsIdentity(entry)
    then principal.Some? && principal.value.userId == entry[|IDENTITY_ACL_PREFIX|..]
    else PermissionSatisfied(granted, entry)
  }

  predicate AclGrants(principal: Option<Principal>, acl: seq<string>, granted: set<string>) {
    acl == [] || exists i | 0 <= i < |acl| :: EntryGrants(principal, acl[i], granted)
  }

  predicate CanRead(principal: Option<Principal>, entity: Entity, policy: Policy) {
    AclGrants(principal, entity.acl, EffectivePermissions(principal, policy))
  }

  // ----- the parameters and the predicate of the SQL filter -----

  function ExactGrants(granted: set<string>): set<string> {
    set p | p in granted && p != WILDCARD && !EndsWith(p, ":*")
  }

  function Exact(principal: Option<Principal>, granted: set<string>): set<string> {
    ExactGrants(granted) + if principal.Some? then {IdentityAcl(principal.value.userId)} else {}
  }

  function WildcardLike(granted: set<string>): set<string> {
    set p | p in granted && EndsWith(p, ":*") :: LikeEscape(p[..|p| - 1]) + "%"
  }

  predicate Overlaps(acl: seq<string>, exact: set<string>) {
    exists i | 0 <= i < |acl| :: acl[i] in exact
  }

  predicate MatchesWildcard(acl: seq<string>, wildcards: set<string>) {
    exists i | 0 <= i < |acl| ::
      !Like(acl[i], IDENTITY_ACL_PREFIX + "%") && exists p | p in wildcards :: Like(acl[i], p)
  }

  predicate HasNonIdentity(acl: seq<string>) {
    exists i | 0 <= i < |acl| :: !Like(acl[i], IDENTITY_ACL_PREFIX + "%")
  }

  predicate SqlReadable(principal: Option<Principal>, acl: seq<string>, granted: set<string>) {
    var exact := Exact(principal, granted);
    || |acl| == 0
    || Overlaps(acl, exact)
    || MatchesWildcard(acl, WildcardLike(granted))
    || (WILDCARD in granted && (HasNonIdentity(acl) || Overlaps(acl, exact)))
  }

  /** The one way SQL lets too much through: a role holds somebody else's identity entry verbatim. */
  predicate HoldsForeignIdentity(principal: Option<Principal>, granted: set<string>) {
    exists p | p in ExactGrants(granted) ::
      IsIdentity(p) && !(principal.Some? && p == IdentityAcl(principal.value.userId))
  }

  lemma IdentityPatternIsPrefix(entry: string)
    ensures Like(entry, IDENTITY_ACL_PREFIX + "%") <==> IsIdentity(entry)
  {
    PlainPrefixMatch(entry, IDENTITY_ACL_PREFIX);
  }

  lemma WildcardPatternsAreCovers(entry: string, granted: set<string>)
    ensures (exists p | p in WildcardLike(granted) :: Like(entry, p)) <==>
            (exists g | g in granted :: Covers(g, entry))
  {
    if p :| p in WildcardLike(granted) && Like(entry, p) {
      var g :| g in granted && EndsWith(g, ":*") && p == LikeEscape(g[..|g| - 1]) + "%";
      EscapedPrefixMatch(entry, g[..|g| - 1]);
      assert Covers(g, entry);
    }
    if g :| g in granted && Covers(g, entry) {
      EscapedPrefixMatch(entry, g[..|g| - 1]);
      assert LikeEscape(g[..|g| - 1]) + "%" in WildcardLike(granted);
    }
  }

  /** Pushing the filter down never hides a readable row. */
  lemma SqlNeverHidesReadable(principal: Option<Principal>, acl: seq<string>, granted: set<string>)
    requires AclGrants(principal, acl, granted)
    ensures SqlReadable(principal, acl, granted)
  {
    if acl != [] {
      var i :| 0 <= i < |acl| && EntryGrants(principal, acl[i], granted);
      var entry := acl[i];
      IdentityPatternIsPrefix(entry);
      if IsIdentity(entry) {
        assert entry == IdentityAcl(principal.value.userId);
        assert entry in Exact(principal, granted);
      } else if WILDCARD in granted {
        assert HasNonIdentity(acl);
      } else if entry in ExactGrants(granted) {
        assert Overlaps(acl, Exact(principal, granted));
      } else {
        if entry in granted {
          assert Covers(entry, entry);
        }
        WildcardPatternsAreCovers(entry, granted);
        assert MatchesWildcard(acl, WildcardLike(granted));
      }
    }
  }

  lemma SqlExactWithoutForeignIdentity(principal: Option<Principal>, acl: seq<string>, granted: set<string>)
    requires SqlReadable(principal, acl, granted)
    requires !HoldsForeignIdentity(principal, granted)
    ensures AclGrants(principal, acl, granted)
  {
    forall i | 0 <= i < |acl| ensures Like(acl[i], IDENTITY_ACL_PREFIX + "%") <==> IsIdentity(acl[i]) {
      IdentityPatternIsPrefix(acl[i]);
    }
    if Overlaps(acl, Exact(principal, granted)) {
      var i :| 0 <= i < |acl| && acl[i] in Exact(principal, granted);
      assert EntryGrants(principal, acl[i], granted);
    } else if MatchesWildcard(acl, WildcardLike(granted)) {
      var i :| 0 <= i < |acl| && !Like(acl[i], IDENTITY_ACL_PREFIX + "%") &&
               exists p | p in WildcardLike(granted) :: Like(acl[i], p);
      WildcardPatternsAreCovers(acl[i], granted);
      assert EntryGrants(principal, acl[i], granted);
    } else if HasNonIdentity(acl) && WILDCARD in granted {
      var i :| 0 <= i < |acl| && !Like(acl[i], IDENTITY_ACL_PREFIX + "%");
      assert EntryGrants(principal, acl[i], granted);
    }
  }

  /** The SQL filter alone equals `can_read` on every ACL exactly when no role holds a foreign
      identity entry, which is what the re-filter in Python is there for. */
  lemma SqlEqualsCanReadIff(principal: Option<Principal>, granted: set<string>)
    ensures (forall acl :: SqlReadable(principal, acl, granted) <==> AclGrants(principal, acl, granted))
            <==> !HoldsForeignIdentity(principal, granted)
  {
    if HoldsForeignIdentity(principal, granted) {
      var p :| p in ExactGrants(granted) && IsIdentity(p) &&
               !(principal.Some? && p == IdentityAcl(principal.value.userId));
      assert [p][0] in Exact(principal, granted);
      assert SqlReadable(principal, [p], granted);
      assert p == IDENTITY_ACL_PREFIX + p[|IDENTITY_ACL_PREFIX|..];
      assert !AclGrants(principal, [p], granted);
    } else {
      forall acl: seq<string>
        ensures SqlReadable(principal, acl, granted) <==> AclGrants(principal, acl, granted)
      {
        if AclGrants(principal, acl, granted) {
          SqlNeverHidesReadable(principal, acl, granted);
        }
        if SqlReadable(principal, acl, granted) {
          SqlExactWithoutForeignIdentity(principal, acl, granted);
        }
      }
    }
  }

  /** A personal entry answers to its owner and to nobody else, wildcard holders included. */
  lemma IdentityAclIsPrivate(principal: Option<Principal>, owner: string, granted: set<string>)
    ensures AclGrants(principal, [IdentityAcl(owner)], granted) <==>
            principal.Some? && principal.value.userId == owner
  {
    var acl := [IdentityAcl(owner)];
    assert IdentityAcl(owner)[|IDENTITY_ACL_PREFIX|..] == owner;
    assert EntryGrants(principal, acl[0], granted) <==> principal.Some? && principal.value.userId == owner;
  }

  // ----- relevance: ILIKE ANY against the in-memory keyword match -----

  /** A character-wise case folding: idempotent, and it neither makes nor unmakes white space or LIKE
      metacharacters. */
  ghost predicate GoodFold(fold: char -> char) {
    fold('\n') == '\n' && forall c :: FoldsWell(fold, c)
  }

  predicate FoldsWell(fold: char -> char, c: char) {
    && fold(fold(c)) == fold(c) && (IsSpace(c) <==> IsSpace(fold(c)))
    && (IsMeta(c) ==> fold(c) == c) && (IsMeta(fold(c)) ==> IsMeta(c))
  }

  lemma AsciiFoldIsGood()
    ensures GoodFold(LowerChar)
  {
  }

  /** name ILIKE ANY(patterns) OR content ILIKE ANY(patterns), one pattern per term. */
  predicate SqlTermMatch(entity: Entity, terms: seq<string>, fold: char -> char) {
    exists i | 0 <= i < |terms| ::
      ILike(entity.name, "%" + LikeEscape(terms[i]) + "%", fold) ||
      ILike(entity.content, "%" + LikeEscape(terms[i]) + "%", fold)
  }

  /** any(term in f"{name}\n{content}".lower()). */
  predicate MemoryTermMatch(entity: Entity, terms: seq<string>, fold: char -> char) {
    exists i | 0 <= i < |terms| :: Contains(Fold(entity.name + "\n" + entity.content, fold), terms[i])
  }

  function Terms(text: string, fold: char -> char): seq<string> {
    Split(Fold(text, fold))
  }

  /** A whitespace-free term cannot straddle the newline between name and content. */
  lemma NoTermStraddlesNewline(name: string, content: string, term: string)
    requires term != "" && SpaceFree(term)
    ensures Contains(name + "\n" + content, term) <==> Contains(name, term) || Contains(content, term)
  {
    var hay := name + "\n" + content;
    if k :| 0 <= k <= |hay| && term <= hay[k..] {
      assert forall i | 0 <= i < |term| :: hay[k + i] == term[i] && !IsSpace(term[i]);
      assert !(k <= |name| < k + |term|) by {
        assert IsSpace(hay[k + (|name| - k)]);
      }
      if k + |term| <= |name| {
        assert term <= name[k..] by {
          assert hay[k..][..|term|] == name[k..][..|term|];
        }
      } else {
        assert hay[k..] == content[k - |name| - 1..];
        assert Contains(content, term);
      }
    }
    if k :| 0 <= k <= |name| && term <= name[k..] {
      assert hay[k..] == name[k..] + "\n" + content;
    }
    if k :| 0 <= k <= |content| && term <= content[k..] {
      assert hay[|name| + 1 + k..] == content[k..];
    }
  }

  lemma {:induction false} FoldOfEscape(t: string, fold: char -> char)
    requires GoodFold(fold)
    ensures Fold(EscapeEach(t), fold) == EscapeEach(Fold(t, fold))
  {
    if t != "" {
      FoldOfEscape(t[1..], fold);
      assert FoldsWell(fold, t[0]) && FoldsWell(fold, '\\');
      var head := if IsMeta(t[0]) then ['\\', t[0]] else [t[0]];
      assert Fold(head + EscapeEach(t[1..]), fold) == Fold(head, fold) + Fold(EscapeEach(t[1..]), fold);
      assert Fold(t, fold)[1..] == Fold(t[1..], fold);
      assert IsMeta(t[0]) <==> IsMeta(fold(t[0]));
      assert Fold(head, fold) == if IsMeta(t[0]) then ['\\', fold(t[0])] else [fold(t[0])];
    }
  }

  lemma PatternIsContainment(field: string, term: string, fold: char -> char)
    requires GoodFold(fold) && Fold(term, fold) == term
    ensures ILike(field, "%" + LikeEscape(term) + "%", fold) <==> Contains(Fold(field, fold), term)
  {
    assert FoldsWell(fold, '%');
    EscapeIsCharacterwise(term);
    FoldOfEscape(term, fold);
    assert Fold("%" + LikeEscape(term) + "%", fold) == "%" + Fold(LikeEscape(term), fold) + "%";
    EscapedSubstringMatch(Fold(field, fold), term);
  }

  /** The ILIKE half of the SQL query selects exactly what the in-memory store would. */
  lemma TermMatchParity(entity: Entity, text: string, fold: char -> char)
    requires GoodFold(fold)
    ensures SqlTermMatch(entity, Terms(text, fold), fold) <==> MemoryTermMatch(entity, Terms(text, fold), fold)
  {
    var terms := Terms(text, fold);
    assert forall i | 0 <= i < |text| :: FoldsWell(fold, text[i]);
    SplitOfFolded(Fold(text, fold), fold);
    assert Fold(entity.name + "\n" + entity.content, fold) == Fold(entity.name, fold) + "\n" + Fold(entity.content, fold);
    forall i | 0 <= i < |terms|
      ensures ILike(entity.name, "%" + LikeEscape(terms[i]) + "%", fold) ||
              ILike(entity.content, "%" + LikeEscape(terms[i]) + "%", fold) <==>
              Contains(Fold(entity.name + "\n" + entity.content, fold), terms[i])
    {
      assert terms[i] in terms;
      PatternIsContainment(entity.name, terms[i], fold);
      PatternIsContainment(entity.content, terms[i], fold);
      NoTermStraddlesNewline(Fold(entity.name, fold), Fold(entity.content, fold), terms[i]);
    }
  }
}
