/** Host keys and the demo-day permissions that depend on them. */
module HostPermissions {
  import opened Sequences
  import opened Text
  import opened Words
  import opened Slug

  const UNDERSCORE := '_'

  /** The characters a key is spelled with. */
  predicate AlphaNumeric(c: char) {
    'a' <= c <= 'z' || '0' <= c <= '9'
  }

  /** The class `[^a-z0-9]`. */
  predicate NotAlphaNumeric(c: char) {
    c < '0' || '9' < c < 'a' || 'z' < c
  }

  /** The chain of replacements; a missing host counts as the empty text. */
  function NormalizeHostKey(lower: string -> string, host: Option<string>): string {
    var text := match host case None => "" case Some(h) => h;
    var named := ReplaceEach(ReplaceEach(lower(Trim(text)), '&', "and"), '+', " ");
    DropTrailing(DropLeading(ReplaceRuns(named, NotAlphaNumeric, [UNDERSCORE]), UNDERSCORE), UNDERSCORE)
  }

  /** Letters and digits are written, an ampersand writes "and", everything else ends words. */
  function HostRole(c: char): Role {
    if c == '&' then Write("and") else if AlphaNumeric(c) then Write([c]) else EndWord
  }

  /** An ampersand glued to letters stays glued: "and" is written letter by letter. */
  lemma AndScans(s: string, pending: bool, started: bool)
    ensures Scan("and" + s, Splitting(NotAlphaNumeric), UNDERSCORE, pending, started)
            == (if pending && started then [UNDERSCORE] else "") + "and"
               + Scan(s, Splitting(NotAlphaNumeric), UNDERSCORE, false, true)
  {
    var rest := Scan(s, Splitting(NotAlphaNumeric), UNDERSCORE, false, true);
    var between := if pending && started then [UNDERSCORE] else "";
    WriteScans('d', s, NotAlphaNumeric, UNDERSCORE);
    WriteScans('n', ['d'] + s, NotAlphaNumeric, UNDERSCORE);
    ScanCons('a', ['n'] + (['d'] + s), Splitting(NotAlphaNumeric), UNDERSCORE, pending, started);
    Letters(s);
    Spell(between, rest);
  }

  lemma Letters(after: string)
    ensures "and" + after == ['a'] + (['n'] + (['d'] + after))
  {
  }

  lemma Spell(before: string, after: string)
    ensures before + ['a'] + (['n'] + (['d'] + after)) == before + "and" + after
  {
  }

  function Named(s: string): string {
    ReplaceEach(ReplaceEach(s, '&', "and"), '+', " ")
  }

  lemma {:induction false} ReplaceEachAppend(a: string, b: string, c: char, insert: string)
    ensures ReplaceEach(a + b, c, insert) == ReplaceEach(a, c, insert) + ReplaceEach(b, c, insert)
  {
    if a == "" {
      assert a + b == b;
    } else {
      assert (a + b)[1..] == a[1..] + b;
      ReplaceEachAppend(a[1..], b, c, insert);
    }
  }

  lemma NamedCons(c: char, s: string)
    ensures Named([c] + s) == (if c == '&' then "and" else if c == '+' then " " else [c]) + Named(s)
  {
    var first := if c == '&' then "and" else [c];
    assert ([c] + s)[1..] == s;
    ReplaceEachAppend(first, ReplaceEach(s, '&', "and"), '+', " ");
    assert [c][1..] == "";
    if c == '&' {
      assert "and"[1..] == "nd" && "nd"[1..] == "d" && "d"[1..] == "";
      assert ReplaceEach("d", '+', " ") == "d";
      assert ReplaceEach("nd", '+', " ") == "nd";
      assert ReplaceEach("and", '+', " ") == "and";
    }
  }

  lemma {:induction false} NamedScans(s: string, pending: bool, started: bool)
    ensures Scan(Named(s), Splitting(NotAlphaNumeric), UNDERSCORE, pending, started)
            == Scan(s, HostRole, UNDERSCORE, pending, started)
    decreases |s|
  {
    if s != "" {
      var c, rest := s[0], s[1..];
      assert s == [c] + rest;
      NamedCons(c, rest);
      NamedScans(rest, false, true);
      NamedScans(rest, true, started);
      if c == '&' {
        AndScans(Named(rest), pending, started);
      } else {
        var role, shown := Splitting(NotAlphaNumeric), if c == '+' then ' ' else c;
        assert role(shown) == if AlphaNumeric(c) then Write([c]) else EndWord;
        ScanCons(shown, Named(rest), role, UNDERSCORE, pending, started);
      }
    }
  }

  /** The passes of `normalizeHostKey` are one pass over the trimmed, lower-cased host. */
  lemma KeyIsOnePass(lower: string -> string, host: string)
    ensures NormalizeHostKey(lower, Some(host)) == Scan(lower(Trim(host)), HostRole, UNDERSCORE, false, false)
  {
    var s := lower(Trim(host));
    NamedScans(s, false, false);
    CollapseIsOnePass(Named(s), NotAlphaNumeric, UNDERSCORE);
  }

  lemma {:induction false} NothingToTrim(s: string)
    requires s == "" || (!IsSpace(s[0]) && !IsSpace(s[|s| - 1]))
    ensures Trim(s) == s
  {
  }

  lemma KeyHasForm(lower: string -> string, host: string)
    ensures WordForm(NormalizeHostKey(lower, Some(host)), AlphaNumeric, UNDERSCORE)
  {
    KeyIsOnePass(lower, host);
    ScanForm(lower(Trim(host)), HostRole, UNDERSCORE, false, "", AlphaNumeric);
    assert "" + NormalizeHostKey(lower, Some(host)) == NormalizeHostKey(lower, Some(host));
  }

  lemma FormIsPlain(lower: string -> string, host: string)
    requires LowerCasing(lower) && WordForm(host, AlphaNumeric, UNDERSCORE)
    ensures Trim(host) == host && lower(host) == host
  {
    NothingToTrim(host);
  }

  lemma FormIsOwnKey(lower: string -> string, host: string)
    requires LowerCasing(lower) && WordForm(host, AlphaNumeric, UNDERSCORE)
    ensures NormalizeHostKey(lower, Some(host)) == host
  {
    FormIsPlain(lower, host);
    KeyIsOnePass(lower, host);
    FormIsFixed(host, HostRole, UNDERSCORE, AlphaNumeric);
  }

  /** Words of `a-z0-9` joined by single underscores, or nothing. */
  ghost predicate KeyShape(s: string) {
    && (forall i :: 0 <= i < |s| ==> 'a' <= s[i] <= 'z' || '0' <= s[i] <= '9' || s[i] == '_')
    && (s != "" ==> s[0] != '_' && s[|s| - 1] != '_')
    && (forall i :: 0 <= i < |s| - 1 ==> !(s[i] == '_' && s[i + 1] == '_'))
  }

  lemma KeyShapeIs(s: string)
    ensures KeyShape(s) <==> WordForm(s, AlphaNumeric, UNDERSCORE)
  {
  }

  /** A key has that shape, and exactly the texts of that shape are their own keys. */
  lemma KeysAreTheFixpoints(lower: string -> string, host: string)
    requires LowerCasing(lower)
    ensures KeyShape(NormalizeHostKey(lower, Some(host)))
    ensures NormalizeHostKey(lower, Some(host)) == host <==> KeyShape(host)
  {
    KeyHasForm(lower, host);
    KeyShapeIs(host);
    KeyShapeIs(NormalizeHostKey(lower, Some(host)));
    if KeyShape(host) {
      FormIsOwnKey(lower, host);
    }
  }

  lemma KeyIdempotent(lower: string -> string, host: string)
    requires LowerCasing(lower)
    ensures var key := NormalizeHostKey(lower, Some(host));
            NormalizeHostKey(lower, Some(key)) == key
  {
    KeysAreTheFixpoints(lower, host);
    KeysAreTheFixpoints(lower, NormalizeHostKey(lower, Some(host)));
  }

  /**
   What a character of the trimmed, lower-cased host counts for: an ampersand for the word "and", anything
   else that is no letter or digit for an underscore, and an underscore for nothing before another one and
   at both ends.
   */
  lemma KeyRewrites(lower: string -> string, host: string, other: string, a: string, c: char, b: string)
    requires lower(Trim(host)) == a + ([c] + b)
    ensures c == '&' && lower(Trim(other)) == a + ("and" + b) ==>
              NormalizeHostKey(lower, Some(host)) == NormalizeHostKey(lower, Some(other))
    ensures c != '&' && !('a' <= c <= 'z' || '0' <= c <= '9') && lower(Trim(other)) == a + (['_'] + b) ==>
              NormalizeHostKey(lower, Some(host)) == NormalizeHostKey(lower, Some(other))
    ensures c == '_' && (a == "" || b == "" || b[0] == '_') && lower(Trim(other)) == a + b ==>
              NormalizeHostKey(lower, Some(host)) == NormalizeHostKey(lower, Some(other))
  {
    KeyIsOnePass(lower, host);
    KeyIsOnePass(lower, other);
    if c == '&' && lower(Trim(other)) == a + ("and" + b) {
      AmpersandIsAnd(a, b);
    } else if c == '_' && (a == "" || b == "" || b[0] == '_') && lower(Trim(other)) == a + b {
      EndWordDrops(a, c, b, HostRole, UNDERSCORE);
    } else if c != '&' && !AlphaNumeric(c) {
      SameRoleSwaps(a, c, '_', b, HostRole, UNDERSCORE);
    }
  }

  lemma AmpersandIsAnd(a: string, b: string)
    ensures Scan(a + (['&'] + b), HostRole, UNDERSCORE, false, false)
            == Scan(a + ("and" + b), HostRole, UNDERSCORE, false, false)
  {
    forall p, s ensures Scan(['&'] + b, HostRole, UNDERSCORE, p, s) == Scan("and" + b, HostRole, UNDERSCORE, p, s) {
      var between := if p && s then [UNDERSCORE] else "";
      var rest := Scan(b, HostRole, UNDERSCORE, false, true);
      Letters(b);
      ScanCons('&', b, HostRole, UNDERSCORE, p, s);
      ScanCons('a', ['n'] + (['d'] + b), HostRole, UNDERSCORE, p, s);
      ScanCons('n', ['d'] + b, HostRole, UNDERSCORE, false, true);
      ScanCons('d', b, HostRole, UNDERSCORE, false, true);
      Spell(between, rest);
    }
    ScanSwap(a, ['&'] + b, "and" + b, HostRole, UNDERSCORE, false, false);
  }

  /** No host at all has the empty key. */
  lemma NoHostNoKey(lower: string -> string)
    requires LowerCasing(lower)
    ensures NormalizeHostKey(lower, None) == ""
  {
    assert Trim("") == "" && lower("") == "";
  }

  // ----- permissions

  const DIRECTORY_FULL := "directory.admin.full"
  const ADMIN_PREFIX := "demoday.admin."
  const ADMIN_ALL := "demoday.admin.all"

  const ADMIN_PROTOCOL_LABS := ADMIN_PREFIX + "protocol_labs"
  const ADMIN_FOUNDERS_FORGE := ADMIN_PREFIX + "founders_forge"
  const ADMIN_CRECIMIENTO := ADMIN_PREFIX + "crecimiento"
  const ADMIN_FOUNDER_SCHOOL := ADMIN_PREFIX + "founder_school"
  const ADMIN_CRECIMIENTO_FOUNDER_SCHOOL := ADMIN_PREFIX + "crecimiento_founder_school"

  const HOST_TO_PERMISSION: map<string, string> := map[
    "protocol_labs" := ADMIN_PROTOCOL_LABS,
    "protocol_ai" := ADMIN_PROTOCOL_LABS,
    "plnetwork_io" := ADMIN_PROTOCOL_LABS,
    "founders_forge" := ADMIN_FOUNDERS_FORGE,
    "crecimiento" := ADMIN_CRECIMIENTO,
    "founder_school" := ADMIN_FOUNDER_SCHOOL,
    "crecimiento_founder_school" := ADMIN_CRECIMIENTO_FOUNDER_SCHOOL]

  /** The names every JavaScript object has without being given them; looking one up yields no permission code. */
  const INHERITED_NAMES: set<string> := {
    "constructor", "hasOwnProperty", "isPrototypeOf", "propertyIsEnumerable", "toString", "toLocaleString", "valueOf",
    "__proto__", "__defineGetter__", "__defineSetter__", "__lookupGetter__", "__lookupSetter__"}

  /** What the table yields for a key: nothing for the empty key, a code, or what the object inherits. */
  datatype HostPermission = NoPermission | Code(code: string) | Inherited(name: string)

  function PermissionCodeForStoredHost(lower: string -> string, host: Option<string>): HostPermission {
    PermissionOfKey(NormalizeHostKey(lower, host))
  }

  function PermissionOfKey(key: string): HostPermission {
    if key == "" then NoPermission
    else if key in HOST_TO_PERMISSION then Code(HOST_TO_PERMISSION[key])
    else if key in INHERITED_NAMES then Inherited(key)
    else Code(ADMIN_PREFIX + key)
  }

  predicate FullAccess(permissions: seq<string>) {
    DIRECTORY_FULL in permissions || ADMIN_ALL in permissions
  }

  function HasPermissionForHost(lower: string -> string, permissions: seq<string>, host: Option<string>): bool {
    FullAccess(permissions) || Granted(permissions, PermissionCodeForStoredHost(lower, host))
  }

  predicate Granted(permissions: seq<string>, permission: HostPermission) {
    permission.Code? && permission.code in permissions
  }

  function AllowedHostValues(lower: string -> string, permissions: seq<string>, hosts: seq<string>): seq<string> {
    if FullAccess(permissions) then hosts
    else Filter(hosts, (h: string) => HasPermissionForHost(lower, permissions, Some(h)))
  }

  predicate StartsWith(s: string, prefix: string) {
    prefix <= s
  }

  /** `canMutateDemoDays` of the session context. */
  predicate CanMutateDemoDays(permissions: seq<string>) {
    || DIRECTORY_FULL in permissions
    || ADMIN_ALL in permissions
    || exists i :: 0 <= i < |permissions| && StartsWith(permissions[i], ADMIN_PREFIX)
  }

  /** A host and its normalised key have the same permission. */
  lemma SamePermissionForKey(lower: string -> string, permissions: seq<string>, host: string)
    requires LowerCasing(lower)
    ensures HasPermissionForHost(lower, permissions, Some(NormalizeHostKey(lower, Some(host))))
            == HasPermissionForHost(lower, permissions, Some(host))
  {
    KeyIdempotent(lower, host);
  }

  /** The allowed hosts are the filter, on the shortcut path too. */
  lemma AllowedIsFilter(lower: string -> string, permissions: seq<string>, hosts: seq<string>)
    ensures AllowedHostValues(lower, permissions, hosts)
            == Filter(hosts, (h: string) => HasPermissionForHost(lower, permissions, Some(h)))
  {
    if FullAccess(permissions) {
      FilterKeepsAll(hosts, (h: string) => HasPermissionForHost(lower, permissions, Some(h)));
    }
  }

  /** More permissions never allow fewer hosts. */
  lemma AllowedIsMonotone(lower: string -> string, permissions: seq<string>, more: seq<string>, hosts: seq<string>)
    requires forall p :: p in permissions ==> p in more
    ensures forall h :: h in AllowedHostValues(lower, permissions, hosts) ==> h in AllowedHostValues(lower, more, hosts)
  {
    AllowedIsFilter(lower, permissions, hosts);
    AllowedIsFilter(lower, more, hosts);
  }

  /** Every code in the table, and every code made from a key, has the admin prefix. */
  lemma CodesHavePrefix(lower: string -> string, host: Option<string>)
    ensures var p := PermissionCodeForStoredHost(lower, host); p.Code? ==> StartsWith(p.code, ADMIN_PREFIX)
  {
    var key := NormalizeHostKey(lower, host);
    if key in HOST_TO_PERMISSION {
      TableHasPrefix(key);
    }
  }

  lemma TableHasPrefix(key: string)
    requires key in HOST_TO_PERMISSION
    ensures StartsWith(HOST_TO_PERMISSION[key], ADMIN_PREFIX)
  {
    TableCodes(key);
  }

  lemma TableCodes(key: string)
    requires key in HOST_TO_PERMISSION
    ensures HOST_TO_PERMISSION[key] in {ADMIN_PROTOCOL_LABS, ADMIN_FOUNDERS_FORGE, ADMIN_CRECIMIENTO,
                                        ADMIN_FOUNDER_SCHOOL, ADMIN_CRECIMIENTO_FOUNDER_SCHOOL}
  {
  }

  /** Whoever is granted some host may change demo days. */
  lemma GrantedMayMutate(lower: string -> string, permissions: seq<string>, host: Option<string>)
    requires HasPermissionForHost(lower, permissions, host)
    ensures CanMutateDemoDays(permissions)
  {
    if !FullAccess(permissions) {
      CodesHavePrefix(lower, host);
      var code := PermissionCodeForStoredHost(lower, host).code;
      var i :| 0 <= i < |permissions| && permissions[i] == code;
    }
  }

  /** Of the inherited names only `constructor` is made of lower-case words joined by single underscores. */
  lemma InheritedKeyIsConstructor(key: string)
    requires WordForm(key, AlphaNumeric, UNDERSCORE)
    ensures key in INHERITED_NAMES <==> key == "constructor"
  {
    assert "hasOwnProperty"[3] == 'O';
    assert "isPrototypeOf"[2] == 'P';
    assert "propertyIsEnumerable"[8] == 'I';
    assert "toString"[2] == 'S';
    assert "toLocaleString"[2] == 'L';
    assert "valueOf"[5] == 'O';
    assert "__proto__"[0] == '_';
    assert "__defineGetter__"[0] == '_';
    assert "__defineSetter__"[0] == '_';
    assert "__lookupGetter__"[0] == '_';
    assert "__lookupSetter__"[0] == '_';
  }

  /** The code a host is meant to be granted by: the one listed for its key, else the one made from it. */
  function OwnCode(lower: string -> string, host: string): string {
    var key := NormalizeHostKey(lower, Some(host));
    if key in HOST_TO_PERMISSION then HOST_TO_PERMISSION[key] else ADMIN_PREFIX + key
  }

  /**
   For every host and every list of permissions: without full access a host is granted exactly by its
   own code, except that a host whose key is empty or `constructor` is granted by nothing.
   */
  lemma GrantedExactly(lower: string -> string, permissions: seq<string>, host: string)
    requires !FullAccess(permissions)
    ensures var key := NormalizeHostKey(lower, Some(host));
            HasPermissionForHost(lower, permissions, Some(host)) <==>
              OwnCode(lower, host) in permissions && key != "" && key != "constructor"
  {
    var key := NormalizeHostKey(lower, Some(host));
    KeyHasForm(lower, host);
    InheritedKeyIsConstructor(key);
    ConstructorIsNotListed();
  }

  /** The code meant for a key: the three names of one organiser share a code, every other key has its own. */
  function CodeFor(key: string): string {
    "demoday.admin." + if key in {"protocol_labs", "protocol_ai", "plnetwork_io"} then "protocol_labs" else key
  }

  lemma TableIsCodeFor(key: string)
    ensures key in HOST_TO_PERMISSION ==> HOST_TO_PERMISSION[key] == CodeFor(key)
    ensures key !in HOST_TO_PERMISSION ==> ADMIN_PREFIX + key == CodeFor(key)
  {
    assert "protocol_labs" in HOST_TO_PERMISSION && "protocol_ai" in HOST_TO_PERMISSION;
    assert "plnetwork_io" in HOST_TO_PERMISSION;
    if key in {"founders_forge", "crecimiento", "founder_school", "crecimiento_founder_school"} {
      KeysDiffer(key);
    }
  }

  /** The other four names of the table are none of the three. */
  lemma KeysDiffer(key: string)
    requires key in {"founders_forge", "crecimiento", "founder_school", "crecimiento_founder_school"}
    ensures key !in {"protocol_labs", "protocol_ai", "plnetwork_io"}
  {
    assert key[0] != 'p';
  }

  /** Who may create demo days of a host: two codes allow every host, and otherwise the host's code allows it. */
  lemma WhoIsAllowed(lower: string -> string, permissions: seq<string>, host: string)
    ensures var key := NormalizeHostKey(lower, Some(host));
            HasPermissionForHost(lower, permissions, Some(host)) <==>
              || "directory.admin.full" in permissions
              || "demoday.admin.all" in permissions
              || (key != "" && key != "constructor" && CodeFor(key) in permissions)
  {
    TableIsCodeFor(NormalizeHostKey(lower, Some(host)));
    if !FullAccess(permissions) {
      GrantedExactly(lower, permissions, host);
    }
  }

  /** Demo days may be changed with the directory code, or with any code of the demo-day admins. */
  lemma WhoMayMutate(permissions: seq<string>)
    ensures CanMutateDemoDays(permissions) <==>
              "directory.admin.full" in permissions || exists p :: p in permissions && "demoday.admin." <= p
  {
    assert "demoday.admin." <= "demoday.admin.all";
    if i :| 0 <= i < |permissions| && StartsWith(permissions[i], ADMIN_PREFIX) {
      assert permissions[i] in permissions;
    }
    if p :| p in permissions && "demoday.admin." <= p {
      var i :| 0 <= i < |permissions| && permissions[i] == p;
      assert StartsWith(permissions[i], ADMIN_PREFIX);
    }
  }

  lemma ConstructorIsNotListed()
    ensures "constructor" !in HOST_TO_PERMISSION
  {
    assert |"constructor"| == 11;
    assert |"protocol_labs"| == 13 && |"protocol_ai"| == 11 && |"plnetwork_io"| == 12 && |"founders_forge"| == 14;
    assert |"crecimiento"| == 11 && |"founder_school"| == 14 && |"crecimiento_founder_school"| == 26;
    assert "constructor"[0] == 'c' && "protocol_ai"[0] == 'p';
    assert "constructor"[1] == 'o' && "crecimiento"[1] == 'r';
  }

  lemma OneWordHost(lower: string -> string, host: string)
    requires LowerCasing(lower) && forall i :: 0 <= i < |host| ==> AlphaNumeric(host[i])
    ensures NormalizeHostKey(lower, Some(host)) == host
  {
    FormIsOwnKey(lower, host);
  }

  lemma NotAnAdmin(code: string)
    requires code == ADMIN_PREFIX + "constructor"
    ensures !FullAccess([code])
  {
    assert |code| == 25;
    assert |DIRECTORY_FULL| == 20 && |ADMIN_ALL| == 17;
  }

  /** The host "constructor" is not granted by its own code. */
  lemma ConstructorExample(lower: string -> string, code: string)
    requires LowerCasing(lower) && code == ADMIN_PREFIX + "constructor"
    ensures OwnCode(lower, "constructor") == code
    ensures !HasPermissionForHost(lower, [code], Some("constructor"))
  {
    ConstructorIsItsKey(lower);
    ConstructorIsNotListed();
    NotAnAdmin(code);
    GrantedExactly(lower, [code], "constructor");
  }

  lemma ConstructorIsItsKey(lower: string -> string)
    requires LowerCasing(lower)
    ensures NormalizeHostKey(lower, Some("constructor")) == "constructor"
  {
    SpelledInLetters("constructor");
    OneWordHost(lower, "constructor");
  }

  lemma SpelledInLetters(word: string)
    requires word == "constructor"
    ensures forall i :: 0 <= i < |word| ==> AlphaNumeric(word[i])
  {
  }
}
