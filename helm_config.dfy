/** The Helm Values page (public/pages/helm-config.tsx): how template variables are
    normalized, which values are suggested from the wizard's context, how a `.env` text is
    read, how imported values are merged, and which required variables block "Next". */
module HelmConfig {
  import opened Wrappers
  import opened JsText
  import JsArray

  // ---------------------------------------------------------------------------
  // Variable definitions

  const StringType := "string"
  const NumberType := "number"
  const BooleanType := "boolean"

  /** A variable as the server describes it; every field may be missing. */
  datatype RawDef = RawDef(
    key: Option<string>,
    files: Option<seq<string>>,
    varType: Option<string>,
    required: Option<bool>,
    description: Option<string>,
    placeholder: Option<string>,
    example: Option<string>)

  /** `VarDef`: a variable once normalized. */
  datatype VarDef = VarDef(
    key: string,
    files: seq<string>,
    varType: string,
    required: bool,
    description: Option<string>,
    placeholder: Option<string>,
    example: Option<string>)

  const BooleanKeys := {"ENABLED", "DEBUG", "TLS"}
  const NumberKeys := {"PORT", "REPLICAS", "CPU_LIMIT", "MEM_LIMIT", "TIMEOUT", "INTERVAL"}
  const RequiredKeys := {"APP_NAME", "IMAGE", "NAMESPACE"}

  /** `/^(ENABLED|DEBUG|TLS|USE_.*)$/`: one of three names, or `USE_` and then anything
      the regular-expression `.` matches. */
  predicate IsBooleanKey(key: string) {
    key in BooleanKeys || (StartsWith(key, "USE_") && NoLineTerminator(key[4..]))
  }

  /** No key is guessed both boolean and number. */
  lemma NumberKeysAreNotBoolean(key: string)
    requires key in NumberKeys
    ensures !IsBooleanKey(key)
  {
    assert key[0] != 'U';
  }

  /** `guessType`. */
  function GuessType(key: string): (r: string)
    ensures r == StringType || r == NumberType || r == BooleanType
    ensures r == BooleanType <==> IsBooleanKey(key)
    ensures r == NumberType <==> key in NumberKeys
    ensures r == StringType <==> !IsBooleanKey(key) && key !in NumberKeys
  {
    if IsBooleanKey(key) then
      (if key in NumberKeys then NumberKeysAreNotBoolean(key); BooleanType else BooleanType)
    else if key in NumberKeys then NumberType
    else StringType
  }

  /** `guessRequired`. */
  function GuessRequired(key: string): (r: bool)
    ensures r <==> key in RequiredKeys
  {
    key == "APP_NAME" || key == "IMAGE" || key == "NAMESPACE"
  }

  /** `String(v.key || "")`: a missing or empty key gives "". */
  function KeyText(key: Option<string>): string {
    if key.Some? then key.value else ""
  }

  /** `v.type || guessType(key)`: only a non-empty supplied type is kept. */
  predicate HasSuppliedType(v: RawDef) {
    v.varType.Some? && v.varType.value != ""
  }

  /** `normalizeDef`: the key upper-cased, the files defaulted to none, a supplied non-empty
      type and a supplied `required` (`false` included) kept, the guesses used otherwise. */
  function NormalizeDef(v: RawDef): (r: VarDef)
    ensures r.key == Upper(KeyText(v.key))
    ensures r.files == if v.files.Some? then v.files.value else []
    ensures r.varType != ""
    ensures HasSuppliedType(v) ==> r.varType == v.varType.value
    ensures !HasSuppliedType(v) ==> r.varType == GuessType(r.key)
    ensures r.required == if v.required.Some? then v.required.value else r.key in RequiredKeys
    ensures r.description == v.description && r.placeholder == v.placeholder && r.example == v.example
  {
    var key := Upper(KeyText(v.key));
    VarDef(
      key,
      if v.files.Some? then v.files.value else [],
      if HasSuppliedType(v) then v.varType.value else GuessType(key),
      if v.required.Some? then v.required.value else GuessRequired(key),
      v.description, v.placeholder, v.example)
  }

  /** A normalized definition written back in the server's form, every field present. */
  function AsRaw(d: VarDef): RawDef {
    RawDef(Some(d.key), Some(d.files), Some(d.varType), Some(d.required), d.description, d.placeholder, d.example)
  }

  predicate HasNoLowerCase(s: string) {
    forall i :: 0 <= i < |s| ==> !('a' <= s[i] <= 'z')
  }

  /** Normalizing gives back a definition given in full exactly when its key has no lower-case
      letter and its type is not empty: nothing else is changed or guessed. */
  lemma NormalizeAsRaw(d: VarDef)
    ensures NormalizeDef(AsRaw(d)) == d <==> HasNoLowerCase(d.key) && d.varType != ""
  {
    if HasNoLowerCase(d.key) {
      assert Upper(d.key) == d.key by {
        forall i | 0 <= i < |d.key| ensures Upper(d.key)[i] == d.key[i] {
          assert Upper(d.key)[i] == UpperChar(d.key[i]);
        }
      }
    }
  }

  /** Normalizing twice is normalizing once. */
  lemma NormalizeIdempotent(v: RawDef)
    ensures NormalizeDef(AsRaw(NormalizeDef(v))) == NormalizeDef(v)
  {
    NormalizeAsRaw(NormalizeDef(v));
  }

  /** The `map(normalizeDef)` of the loaded variables. */
  function NormalizeAll(vars: seq<RawDef>): seq<VarDef> {
    seq(|vars|, i requires 0 <= i < |vars| => NormalizeDef(vars[i]))
  }

  // ---------------------------------------------------------------------------
  // Values and suggestions

  /** A value of the `values` record: what the page, the `.env` import and JSON can put there.
      `Nested` is an array or object, whose content the model does not follow. */
  datatype Value = Str(s: string) | Num(n: int) | Bool(b: bool) | Null | Nested

  /** The wizard's context; an absent entry is "". */
  datatype Context = Context(owner: string, repoName: string, appName: string)

  const WellKnownKeys := {"APP_NAME", "IMAGE", "NAMESPACE", "REPLICAS"}

  /** The image reference suggested for an owner and a lower-cased app name. */
  function ImageRef(owner: string, app: string, tag: string): string {
    "ghcr.io/" + owner + "/" + app + ":" + tag
  }

  /** The value `buildSuggestions` writes for an upper-cased key, if any. */
  function SuggestionFor(k: string, ctx: Context): (r: Option<Value>)
    ensures r.Some? <==> k in WellKnownKeys
  {
    var app := Lower(ctx.appName);
    if k == "APP_NAME" then Some(Str(ctx.appName))
    else if k == "IMAGE" then Some(Str(if ctx.owner != "" && app != "" then ImageRef(ctx.owner, app, "latest") else ""))
    else if k == "NAMESPACE" then Some(Str(if app != "" then app else "default"))
    else if k == "REPLICAS" then Some(Num(1))
    else None
  }

  /** Some definition's upper-cased key is `k`. */
  predicate DefinesKey(defs: seq<VarDef>, k: string) {
    exists i :: 0 <= i < |defs| && Upper(defs[i].key) == k
  }

  /** `m` holds exactly the suggestions for the well-known keys the definitions name. */
  ghost predicate IsSuggestionMap(defs: seq<VarDef>, ctx: Context, m: map<string, Value>) {
    && (forall k :: k in m <==> k in WellKnownKeys && DefinesKey(defs, k))
    && (forall k :: k in m ==> SuggestionFor(k, ctx) == Some(m[k]))
  }

  /** One more definition adds the suggestion for its upper-cased key, if it has one. */
  lemma SuggestionStep(defs: seq<VarDef>, i: nat, ctx: Context, prev: map<string, Value>)
    requires i < |defs| && IsSuggestionMap(defs[..i], ctx, prev)
    ensures var k := Upper(defs[i].key);
      IsSuggestionMap(defs[..i + 1], ctx, if k in WellKnownKeys then prev[k := SuggestionFor(k, ctx).value] else prev)
  {
    var k := Upper(defs[i].key);
    assert Upper(defs[..i + 1][i].key) == k;
    forall key | DefinesKey(defs[..i], key) ensures DefinesKey(defs[..i + 1], key) {
      var j :| 0 <= j < i && Upper(defs[..i][j].key) == key;
      assert defs[..i + 1][j] == defs[..i][j];
    }
    forall key | DefinesKey(defs[..i + 1], key) && key != k ensures DefinesKey(defs[..i], key) {
      var j :| 0 <= j < i + 1 && Upper(defs[..i + 1][j].key) == key;
      assert defs[..i + 1][j] == defs[..i][j];
    }
  }

  /** `buildSuggestions`. */
  method BuildSuggestions(defs: seq<VarDef>, ctx: Context) returns (m: map<string, Value>)
    ensures IsSuggestionMap(defs, ctx, m)
  {
    m := map[];
    var app := Lower(ctx.appName);
    var owner := ctx.owner;
    var i := 0;
    while i < |defs|
      invariant 0 <= i <= |defs|
      invariant IsSuggestionMap(defs[..i], ctx, m)
    {
      var prev := m;
      var k := Upper(defs[i].key);
      if k == "APP_NAME" {
        m := m[k := Str(ctx.appName)];
      }
      if k == "IMAGE" {
        m := m[k := Str(if owner != "" && app != "" then ImageRef(owner, app, "latest") else "")];
      }
      if k == "NAMESPACE" {
        m := m[k := Str(if app != "" then app else "default")];
      }
      if k == "REPLICAS" {
        m := m[k := Num(1)];
      }
      assert m == if k in WellKnownKeys then prev[k := SuggestionFor(k, ctx).value] else prev;
      SuggestionStep(defs, i, ctx, prev);
      i := i + 1;
    }
    assert defs[..|defs|] == defs;
  }

  /** With an owner and an app name in the context, the suggested image is
      `ghcr.io/<owner>/<lower-cased app>:latest`. */
  lemma ImageSuggestionExample(ctx: Context)
    requires ctx.owner == "acme" && ctx.appName == "Widgets"
    ensures SuggestionFor("IMAGE", ctx) == Some(Str("ghcr.io/acme/widgets:latest"))
  {
    assert Lower(ctx.appName) == "widgets";
    assert ImageRef(ctx.owner, "widgets", "latest") == "ghcr.io/acme/widgets:latest";
  }

  /** Every suggested image, when not "", names the owner and the lower-cased app. */
  lemma ImageSuggestionShape(ctx: Context)
    ensures SuggestionFor("IMAGE", ctx) ==
      Some(Str(if ctx.owner == "" || ctx.appName == "" then "" else ImageRef(ctx.owner, Lower(ctx.appName), "latest")))
  {
    assert |Lower(ctx.appName)| == |ctx.appName|;
  }

  // ---------------------------------------------------------------------------
  // Placeholders

  /** `a || b` on strings. */
  function OrElse(a: string, b: string): string {
    if a != "" then a else b
  }

  /** `suggestPlaceholder`. */
  function SuggestPlaceholder(key: string, ctx: Context): (r: string)
    ensures r != "" <==> Upper(key) in WellKnownKeys
  {
    var k := Upper(key);
    if k == "IMAGE" then ImageRef(OrElse(ctx.owner, "owner"), Lower(OrElse(ctx.appName, "app")), "tag")
    else if k == "NAMESPACE" then Lower(OrElse(ctx.appName, "app"))
    else if k == "APP_NAME" then OrElse(ctx.appName, "my-app")
    else if k == "REPLICAS" then "1"
    else ""
  }

  /** Once the app name is known, the placeholders of APP_NAME and NAMESPACE are what
      `buildSuggestions` fills in, and that of REPLICAS spells the suggested number. */
  lemma PlaceholderAgreesWithSuggestion(ctx: Context)
    requires ctx.appName != ""
    ensures SuggestionFor("APP_NAME", ctx) == Some(Str(SuggestPlaceholder("APP_NAME", ctx)))
    ensures SuggestionFor("NAMESPACE", ctx) == Some(Str(SuggestPlaceholder("NAMESPACE", ctx)))
    ensures SuggestPlaceholder("REPLICAS", ctx) == DecimalString(SuggestionFor("REPLICAS", ctx).value.n)
  {
    assert Upper("APP_NAME") == "APP_NAME";
    assert Upper("NAMESPACE") == "NAMESPACE";
    assert Upper("REPLICAS") == "REPLICAS";
    assert Upper("IMAGE") == "IMAGE";
  }

  /** The placeholder of a value input: the definition's own placeholder, else its example,
      else the suggested one. */
  function FieldPlaceholder(d: VarDef, ctx: Context): (r: string)
    ensures d.placeholder.Some? && d.placeholder.value != "" ==> r == d.placeholder.value
    ensures (d.placeholder.None? || d.placeholder.value == "") && d.example.Some? && d.example.value != "" ==>
      r == d.example.value
    ensures (d.placeholder.None? || d.placeholder.value == "") && (d.example.None? || d.example.value == "") ==>
      r == SuggestPlaceholder(d.key, ctx)
    ensures r == "" ==> SuggestPlaceholder(d.key, ctx) == ""
  {
    var own := if d.placeholder.Some? then d.placeholder.value else "";
    var ex := if d.example.Some? then d.example.value else "";
    OrElse(OrElse(own, ex), SuggestPlaceholder(d.key, ctx))
  }

  // ---------------------------------------------------------------------------
  // The `.env` import

  /** `split("\n")`. */
  function SplitOnNewline(s: string): (r: seq<string>)
    ensures |r| >= 1
    decreases |s|
  {
    if s == [] then [""]
    else
      var rest := SplitOnNewline(s[1..]);
      if s[0] == '\n' then [""] + rest
      else [[s[0]] + rest[0]] + rest[1..]
  }

  /** The pieces hold no newline, and joining them with newlines gives the text back. */
  lemma {:induction false} SplitOnNewlineJoin(s: string)
    ensures Join(SplitOnNewline(s), "\n") == s
    ensures forall i :: 0 <= i < |SplitOnNewline(s)| ==> '\n' !in SplitOnNewline(s)[i]
    decreases |s|
  {
    if s != [] {
      var rest := SplitOnNewline(s[1..]);
      SplitOnNewlineJoin(s[1..]);
      var r := SplitOnNewline(s);
      if s[0] == '\n' {
        assert r[1..] == rest;
        assert s == "\n" + s[1..];
      } else {
        assert r[1..] == rest[1..];
        if |rest| == 1 {
          assert s == [s[0]] + rest[0];
        } else {
          assert rest == [rest[0]] + rest[1..];
          assert Join(rest, "\n") == rest[0] + "\n" + Join(rest[1..], "\n");
          assert s == [s[0]] + s[1..];
        }
        assert '\n' !in [s[0]] + rest[0];
      }
    }
  }

  /** `split(/\r?\n/)`: the pieces between newlines, each but the last without one `\r` that
      stood right before its newline. */
  function Lines(raw: string): (r: seq<string>)
    ensures |r| == |SplitOnNewline(raw)|
  {
    var pieces := SplitOnNewline(raw);
    seq(|pieces|, i requires 0 <= i < |pieces| =>
      if i < |pieces| - 1 && EndsWith(pieces[i], "\r") then pieces[i][..|pieces[i]| - 1] else pieces[i])
  }

  predicate IsIdentStart(c: char) {
    ('A' <= c <= 'Z') || ('a' <= c <= 'z') || c == '_'
  }

  predicate IsIdentChar(c: char) {
    IsIdentStart(c) || ('0' <= c <= '9')
  }

  /** `[A-Za-z_][A-Za-z0-9_]*` as a whole. */
  predicate IsIdent(s: string) {
    s != [] && IsIdentStart(s[0]) && forall i :: 0 <= i < |s| ==> IsIdentChar(s[i])
  }

  /** The longest prefix of `s` made of identifier characters. */
  function TakeIdent(s: string): (r: string)
    ensures |r| <= |s|
  {
    if s == [] || !IsIdentChar(s[0]) then [] else [s[0]] + TakeIdent(s[1..])
  }

  lemma {:induction false} TakeIdentShape(s: string)
    ensures var r := TakeIdent(s);
      && r <= s
      && (forall i :: 0 <= i < |r| ==> IsIdentChar(r[i]))
      && (|r| < |s| ==> !IsIdentChar(s[|r|]))
    decreases |s|
  {
    if s != [] && IsIdentChar(s[0]) {
      TakeIdentShape(s[1..]);
    }
  }

  /** Identifier characters followed by a character that is not one: the identifier is taken. */
  lemma {:induction false} TakeIdentBefore(k: string, rest: string)
    requires forall i :: 0 <= i < |k| ==> IsIdentChar(k[i])
    requires rest != [] && !IsIdentChar(rest[0])
    ensures TakeIdent(k + rest) == k
    decreases |k|
  {
    if k == [] {
      assert k + rest == rest;
    } else {
      assert (k + rest)[0] == k[0];
      assert (k + rest)[1..] == k[1..] + rest;
      TakeIdentBefore(k[1..], rest);
      assert k == [k[0]] + k[1..];
    }
  }

  /** The `if` that strips one pair of matching `"` or `'` quotes; `slice(1, -1)` of a lone
      quote is "". */
  function StripQuotes(v: string): (r: string)
    ensures |r| <= |v|
  {
    if (StartsWith(v, "\"") && EndsWith(v, "\"")) || (StartsWith(v, "'") && EndsWith(v, "'")) then
      if |v| >= 2 then v[1..|v| - 1] else ""
    else v
  }

  /** One pair of quotes around any text is removed, and only one; a lone quote, which both
      starts and ends the value, becomes "". */
  lemma StripQuotesOfQuoted(x: string, q: char)
    requires q == '"' || q == '\''
    ensures StripQuotes([q] + x + [q]) == x
    ensures StripQuotes([q]) == ""
  {
    var v := [q] + x + [q];
    assert v[1..|v| - 1] == x;
    assert v[|v| - 1..] == [q];
  }

  /** Text that neither starts and ends with `"` nor starts and ends with `'` is kept. */
  lemma StripQuotesUnquoted(v: string)
    requires !(v != [] && v[0] == '"' && v[|v| - 1] == '"')
    requires !(v != [] && v[0] == '\'' && v[|v| - 1] == '\'')
    ensures StripQuotes(v) == v
  {
  }

  datatype EnvEntry = EnvEntry(key: string, value: string)

  /** What one line contributes: nothing for a blank line, a `#` comment or a line that is not
      `identifier=value` once trimmed; otherwise the identifier and the value after the first `=`,
      unquoted. */
  function ParseEnvLine(line: string): (r: Option<EnvEntry>)
    ensures Trim(line) == [] || StartsWith(Trim(line), "#") ==> r.None?
    ensures r.Some? ==> IsIdent(r.value.key)
  {
    var t := Trim(line);
    if t == [] || StartsWith(t, "#") then None
    else
      var id := TakeIdent(t);
      TakeIdentShape(t);
      if id == [] || !IsIdentStart(id[0]) || |id| == |t| || t[|id|] != '=' then None
      else
        var raw := t[|id| + 1..];
        if !NoLineTerminator(raw) then None
        else Some(EnvEntry(id, StripQuotes(raw)))
  }

  /** The trimmed line is `key=raw` as the regular expression `^([A-Za-z_][A-Za-z0-9_]*)=(.*)$`
      reads it. */
  predicate IsAssignment(t: string, key: string, raw: string) {
    t == key + "=" + raw && IsIdent(key) && NoLineTerminator(raw)
  }

  /** What a line parses to is an assignment in its trimmed text: the key, then `=`, then
      the value before unquoting. */
  lemma ParseEnvLineSound(line: string)
    requires ParseEnvLine(line).Some?
    ensures var t, e := Trim(line), ParseEnvLine(line).value;
      && |e.key| < |t|
      && IsAssignment(t, e.key, t[|e.key| + 1..])
      && e.value == StripQuotes(t[|e.key| + 1..])
  {
    var t := Trim(line);
    var e := ParseEnvLine(line).value;
    TakeIdentShape(t);
    assert t == e.key + "=" + t[|e.key| + 1..];
  }

  /** Every assignment is read: the key, and the value unquoted. */
  lemma ParseEnvLineComplete(line: string, key: string, raw: string)
    requires IsAssignment(Trim(line), key, raw)
    ensures ParseEnvLine(line) == Some(EnvEntry(key, StripQuotes(raw)))
  {
    var t := Trim(line);
    assert t == key + ("=" + raw);
    TakeIdentBefore(key, "=" + raw);
    assert t[0] == key[0];
    assert t[|key|] == '=';
    assert t[|key| + 1..] == raw;
  }

  /** The `__proto__` key: assigning a string to it on a plain object adds no entry. */
  const ProtoKey := "__proto__"

  /** What each line contributes. */
  function ParseAll(lines: seq<string>): seq<Option<EnvEntry>> {
    seq(|lines|, i requires 0 <= i < |lines| => ParseEnvLine(lines[i]))
  }

  /** The record the entries write, first to last. */
  function Collect(entries: seq<Option<EnvEntry>>): map<string, string>
    decreases |entries|
  {
    if entries == [] then map[]
    else
      var m := Collect(entries[..|entries| - 1]);
      match entries[|entries| - 1]
      case None => m
      case Some(e) => if e.key == ProtoKey then m else m[e.key := e.value]
  }

  /** The record built from the lines. */
  function EnvOf(lines: seq<string>): map<string, string> {
    Collect(ParseAll(lines))
  }

  /** The entry is for `k`. */
  predicate EntryFor(entry: Option<EnvEntry>, k: string) {
    entry.Some? && entry.value.key == k
  }

  lemma {:induction false} CollectKeys(entries: seq<Option<EnvEntry>>, k: string)
    ensures k in Collect(entries) <==> k != ProtoKey && exists i :: 0 <= i < |entries| && EntryFor(entries[i], k)
    decreases |entries|
  {
    if entries != [] {
      var n := |entries| - 1;
      var init := entries[..n];
      CollectKeys(init, k);
      if k != ProtoKey && !EntryFor(entries[n], k) && exists i :: 0 <= i < |entries| && EntryFor(entries[i], k) {
        var i :| 0 <= i < |entries| && EntryFor(entries[i], k);
        assert init[i] == entries[i];
      }
      if k in Collect(init) {
        var i :| 0 <= i < n && EntryFor(init[i], k);
        assert entries[i] == init[i];
      }
    }
  }

  lemma {:induction false} CollectLastWins(entries: seq<Option<EnvEntry>>, k: string)
    requires k in Collect(entries)
    ensures exists i :: && 0 <= i < |entries|
                        && entries[i] == Some(EnvEntry(k, Collect(entries)[k]))
                        && forall j :: i < j < |entries| ==> !EntryFor(entries[j], k)
    decreases |entries|
  {
    var n := |entries| - 1;
    var init := entries[..n];
    CollectKeys(entries, k);
    if EntryFor(entries[n], k) {
      assert entries[n] == Some(EnvEntry(k, Collect(entries)[k]));
    } else {
      assert k in Collect(init) && Collect(entries)[k] == Collect(init)[k];
      CollectLastWins(init, k);
      var i :| && 0 <= i < n
               && init[i] == Some(EnvEntry(k, Collect(init)[k]))
               && forall j :: i < j < n ==> !EntryFor(init[j], k);
      assert entries[i] == init[i];
      forall j | i < j < |entries| ensures !EntryFor(entries[j], k) {
        if j < n {
          assert entries[j] == init[j];
        }
      }
    }
  }

  /** A key is in the record exactly when some line parses to it and it is not `__proto__`;
      its value is that of the last line that parses to it. */
  lemma EnvOfLookup(lines: seq<string>, k: string)
    ensures k in EnvOf(lines) <==> k != ProtoKey && exists i :: 0 <= i < |lines| && EntryFor(ParseEnvLine(lines[i]), k)
    ensures k in EnvOf(lines) ==>
      exists i :: && 0 <= i < |lines|
                  && ParseEnvLine(lines[i]) == Some(EnvEntry(k, EnvOf(lines)[k]))
                  && forall j :: i < j < |lines| ==> !EntryFor(ParseEnvLine(lines[j]), k)
  {
    var entries := ParseAll(lines);
    assert |entries| == |lines| && forall i :: 0 <= i < |lines| ==> entries[i] == ParseEnvLine(lines[i]);
    CollectKeys(entries, k);
    if k in EnvOf(lines) {
      CollectLastWins(entries, k);
    }
  }

  /** `parseEnv`. */
  method ParseEnv(raw: string) returns (m: map<string, string>)
    ensures m == EnvOf(Lines(raw))
  {
    var lines := Lines(raw);
    m := map[];
    var i := 0;
    while i < |lines|
      invariant 0 <= i <= |lines|
      invariant m == EnvOf(lines[..i])
    {
      var entry := ParseEnvLine(lines[i]);
      assert ParseAll(lines[..i + 1])[..i] == ParseAll(lines[..i]);
      assert ParseAll(lines[..i + 1])[i] == entry;
      // On a plain object, `map["__proto__"] = val` sets no entry.
      if entry.Some? && entry.value.key != ProtoKey {
        m := m[entry.value.key := entry.value.value];
      }
      i := i + 1;
    }
    assert lines[..|lines|] == lines;
  }

  /** A carriage return at the end of a line changes nothing: trimming removes it. */
  lemma ParseEnvLineCarriageReturn(x: string)
    ensures ParseEnvLine(x + "\r") == ParseEnvLine(x)
  {
    var t := TrimStart(x);
    TrimStartAppend(x, "\r");
    assert TrimStart("\r") == [] by {
      assert "\r"[1..] == [];
    }
    if t != [] {
      assert TrimStart(x + "\r") == t + "\r";
      assert (t + "\r")[..|t|] == t;
    }
  }

  /** Splitting on `\r?\n` or on `\n` alone reads the same record: CRLF and LF files import alike. */
  lemma CrLfAlike(raw: string)
    ensures EnvOf(Lines(raw)) == EnvOf(SplitOnNewline(raw))
  {
    var pieces := SplitOnNewline(raw);
    var lines := Lines(raw);
    forall i | 0 <= i < |lines| ensures ParseEnvLine(lines[i]) == ParseEnvLine(pieces[i]) {
      if i < |pieces| - 1 && EndsWith(pieces[i], "\r") {
        var p := pieces[i];
        assert p == p[..|p| - 1] + "\r";
        ParseEnvLineCarriageReturn(p[..|p| - 1]);
      }
    }
    assert ParseAll(lines) == ParseAll(pieces);
  }

  // ---------------------------------------------------------------------------
  // Merging imports and the required check

  /** `{ ...prev, ...imported }`. */
  function Merge(prev: map<string, Value>, imported: map<string, Value>): (r: map<string, Value>)
    ensures forall k :: k in r <==> k in prev || k in imported
    ensures forall k :: k in imported ==> r[k] == imported[k]
    ensures forall k :: k in prev && k !in imported ==> r[k] == prev[k]
  {
    prev + imported
  }

  /** The `.env` record as values: every entry a string. */
  function EnvValues(env: map<string, string>): map<string, Value> {
    map k | k in env :: Str(env[k])
  }

  /** The definition is required and its value is missing or "". */
  predicate IsMissing(d: VarDef, values: map<string, Value>) {
    d.required && (d.key !in values || values[d.key] == Str(""))
  }

  /** The keys of the definitions that block saving, in definition order. */
  function MissingRequired(defs: seq<VarDef>, values: map<string, Value>): (r: seq<string>)
    ensures |r| <= |defs|
  {
    var missing := JsArray.Filter(defs, (d: VarDef) => IsMissing(d, values));
    seq(|missing|, i requires 0 <= i < |missing| => missing[i].key)
  }

  /** The blocking keys are the keys of the missing definitions, in definition order: those of a
      subsequence of `defs` that holds every missing definition as often as `defs` does and no
      other definition (which by `JsArray.FilterUnique` is exactly one sequence). */
  lemma MissingRequiredInOrder(defs: seq<VarDef>, values: map<string, Value>)
    ensures exists missing: seq<VarDef> ::
      && JsArray.IsSubsequence(missing, defs)
      && (forall d :: multiset(missing)[d] == if IsMissing(d, values) then multiset(defs)[d] else 0)
      && |missing| == |MissingRequired(defs, values)|
      && forall i :: 0 <= i < |missing| ==> missing[i].key == MissingRequired(defs, values)[i]
  {
    var p := (d: VarDef) => IsMissing(d, values);
    var missing := JsArray.Filter(defs, p);
    JsArray.FilterIsSubsequence(defs, p);
    JsArray.FilterMultiset(defs, p);
    assert forall d :: multiset(missing)[d] == if IsMissing(d, values) then multiset(defs)[d] else 0;
  }

  /** Saving is blocked exactly when a required value is missing or "", and the keys listed are
      exactly the keys of those definitions. */
  lemma MissingRequiredMeaning(defs: seq<VarDef>, values: map<string, Value>)
    ensures (exists i :: 0 <= i < |defs| && IsMissing(defs[i], values)) <==> MissingRequired(defs, values) != []
    ensures forall k :: k in MissingRequired(defs, values) <==>
      exists i :: 0 <= i < |defs| && IsMissing(defs[i], values) && defs[i].key == k
  {
    var p := (d: VarDef) => IsMissing(d, values);
    var missing := JsArray.Filter(defs, p);
    var r := MissingRequired(defs, values);
    forall d ensures d in missing <==> d in defs && IsMissing(d, values) {
      JsArray.FilterMembers(defs, p, d);
    }
    forall k ensures k in r <==> exists i :: 0 <= i < |defs| && IsMissing(defs[i], values) && defs[i].key == k {
      if k in r {
        var j :| 0 <= j < |r| && r[j] == k;
        assert missing[j] in defs;
      }
      if exists i :: 0 <= i < |defs| && IsMissing(defs[i], values) && defs[i].key == k {
        var i :| 0 <= i < |defs| && IsMissing(defs[i], values) && defs[i].key == k;
        assert defs[i] in missing;
        var j :| 0 <= j < |missing| && missing[j] == defs[i];
        assert r[j] == k;
      }
    }
    if exists i :: 0 <= i < |defs| && IsMissing(defs[i], values) {
      var i :| 0 <= i < |defs| && IsMissing(defs[i], values);
      assert defs[i].key in r;
    }
    if r != [] {
      assert missing[0] in defs && IsMissing(missing[0], values);
    }
  }

  /** Definitions as loaded, with `required` left to the guess, never block "Next" on the
      suggested values once the context has both an owner and an app name. */
  lemma SuggestionsFillGuessedRequired(vars: seq<RawDef>, ctx: Context, m: map<string, Value>)
    requires forall i :: 0 <= i < |vars| ==> vars[i].required.None?
    requires ctx.owner != "" && ctx.appName != ""
    requires IsSuggestionMap(NormalizeAll(vars), ctx, m)
    ensures MissingRequired(NormalizeAll(vars), m) == []
  {
    var defs := NormalizeAll(vars);
    assert Upper("APP_NAME") == "APP_NAME";
    assert Upper("IMAGE") == "IMAGE";
    assert Upper("NAMESPACE") == "NAMESPACE";
    forall i | 0 <= i < |defs| ensures !IsMissing(defs[i], m) {
      var d := defs[i];
      if d.required {
        assert d.key in RequiredKeys;
        assert Upper(d.key) == d.key;
        assert DefinesKey(defs, d.key);
        assert d.key in m;
        assert Lower(ctx.appName) != "";
      }
    }
    MissingRequiredMeaning(defs, m);
  }

  const MissingMessagePrefix := "กรอกค่าที่จำเป็นไม่ครบ: "

  /** The error shown for the blocking keys. */
  function MissingMessage(keys: seq<string>): string {
    MissingMessagePrefix + Join(keys, ", ")
  }

  // ---------------------------------------------------------------------------
  // The page

  /** The saved wizard configuration; an absent entry is "". */
  datatype WizardConf = WizardConf(connectionId: string, owner: string, repoName: string, appName: string, template: string)

  /** What a JSON import produces: nothing (the prompt dismissed or left empty), a parse error,
      or the parsed object's entries. */
  datatype JsonImport = Dismissed | Malformed | Parsed(entries: map<string, Value>)

  const DefaultTemplate := "https://github.com/maohnnn/Helm-Template-Normal-App.git"

  /** The page's state: the `useState` fields of `HelmConfig` (the preview aside). */
  class HelmConfigPage {
    var loading: bool
    var saving: bool
    var error: Option<string>
    var connectionId: string
    var owner: string
    var repoName: string
    var appName: string
    var template: string
    var defs: seq<VarDef>
    var values: map<string, Value>

    constructor ()
      ensures loading && !saving && error == None
      ensures connectionId == "" && owner == "" && repoName == "" && appName == ""
      ensures template == DefaultTemplate && defs == [] && values == map[]
    {
      loading := true;
      saving := false;
      error := None;
      connectionId := "";
      owner := "";
      repoName := "";
      appName := "";
      template := DefaultTemplate;
      defs := [];
      values := map[];
    }

    /** The mount effect: the wizard configuration, then the template's variables (`None` when
        the answer has no `vars`), normalized, with the suggested values. The page reads the
        configuration of a non-OK answer as `{}`, which is `Answered` with every field "", and
        decodes the variables' body whatever its status, so an error body without `vars` is
        `Answered(None)`. */
    method Load(conf: Response<WizardConf>, vars: Response<Option<seq<RawDef>>>)
      modifies this`loading, this`error, this`connectionId, this`owner, this`repoName, this`appName
      modifies this`template, this`defs, this`values
      ensures !loading
      ensures conf.Failed? ==> error == Some(conf.message)
      ensures conf.Failed? ==>
        && connectionId == old(connectionId) && owner == old(owner) && repoName == old(repoName)
        && appName == old(appName) && template == old(template)
      ensures conf.Failed? || vars.Failed? ==> defs == old(defs) && values == old(values)
      ensures conf.Answered? ==>
        && connectionId == conf.value.connectionId && owner == conf.value.owner
        && repoName == conf.value.repoName && appName == conf.value.appName
        && template == OrElse(conf.value.template, old(template))
      ensures conf.Answered? && vars.Failed? ==> error == Some(vars.message)
      ensures conf.Answered? && vars.Answered? ==>
        && error == old(error)
        && defs == NormalizeAll(if vars.value.Some? then vars.value.value else [])
        && IsSuggestionMap(defs, Context(owner, repoName, appName), values)
    {
      if conf.Failed? {
        error := Some(conf.message);
        loading := false;
        return;
      }
      var c := conf.value;
      connectionId := c.connectionId;
      owner := c.owner;
      repoName := c.repoName;
      appName := c.appName;
      template := OrElse(c.template, template);
      if vars.Failed? {
        error := Some(vars.message);
        loading := false;
        return;
      }
      var incoming := NormalizeAll(if vars.value.Some? then vars.value.value else []);
      var prefills := BuildSuggestions(incoming, Context(c.owner, c.repoName, c.appName));
      defs := incoming;
      values := prefills;
      loading := false;
    }

    /** `setValue`: the typed value, or for a number or boolean variable the result of
        `Number` or `Boolean` on it, which is passed in as `coerced`. */
    method SetValue(key: string, typed: Value, coerced: Value)
      modifies this`values
      ensures var found := JsArray.FindIndex(defs, (d: VarDef) => d.key == key);
        var t := if found.Some? then defs[found.value].varType else "";
        values == old(values)[key := if t == NumberType || t == BooleanType then coerced else typed]
    {
      var found := JsArray.FindIndex(defs, (d: VarDef) => d.key == key);
      var t := if found.Some? then defs[found.value].varType else "";
      values := values[key := if t == NumberType || t == BooleanType then coerced else typed];
    }

    /** Choosing a type in a variable's select: every definition with that key gets it. */
    method EditType(key: string, t: string)
      modifies this`defs
      ensures |defs| == |old(defs)|
      ensures forall i :: 0 <= i < |defs| ==>
        defs[i] == if old(defs)[i].key == key then old(defs)[i].(varType := t) else old(defs)[i]
    {
      var prev := defs;
      defs := seq(|prev|, i requires 0 <= i < |prev| => if prev[i].key == key then prev[i].(varType := t) else prev[i]);
    }

    /** Typing a variable's description. */
    method EditDescription(key: string, text: string)
      modifies this`defs
      ensures |defs| == |old(defs)|
      ensures forall i :: 0 <= i < |defs| ==>
        defs[i] == if old(defs)[i].key == key then old(defs)[i].(description := Some(text)) else old(defs)[i]
    {
      var prev := defs;
      defs := seq(|prev|, i requires 0 <= i < |prev| => if prev[i].key == key then prev[i].(description := Some(text)) else prev[i]);
    }

    /** `handleImportJson`: a parsed object is merged over the values; otherwise nothing changes. */
    method ImportJson(outcome: JsonImport)
      modifies this`values
      ensures values == if outcome.Parsed? then Merge(old(values), outcome.entries) else old(values)
    {
      if outcome.Parsed? {
        values := Merge(values, outcome.entries);
      }
    }

    /** `handleImportEnv`: `None` is a dismissed prompt; a non-empty text is parsed and merged. */
    method ImportEnv(raw: Option<string>)
      modifies this`values
      ensures raw.None? || raw.value == "" ==> values == old(values)
      ensures raw.Some? && raw.value != "" ==> values == Merge(old(values), EnvValues(EnvOf(Lines(raw.value))))
    {
      if raw.None? || raw.value == "" {
        return;
      }
      var env := ParseEnv(raw.value);
      values := Merge(values, EnvValues(env));
    }

    /** `handleNext`: blocked, with the list of keys, while a required value is missing;
        otherwise the values are posted and the wizard moves on. The page never reads the POST's
        status, so `postError` is `Some` only when the request throws; an error status is
        `None`. */
    method HandleNext(postError: Option<string>) returns (proceed: bool)
      modifies this`saving, this`error
      ensures !saving
      ensures proceed <==> MissingRequired(defs, values) == [] && postError.None?
      ensures MissingRequired(defs, values) != [] ==> error == Some(MissingMessage(MissingRequired(defs, values)))
      ensures MissingRequired(defs, values) == [] ==> error == postError
    {
      saving := true;
      error := None;
      var missing := MissingRequired(defs, values);
      if |missing| > 0 {
        error := Some(MissingMessage(missing));
        saving := false;
        return false;
      }
      if postError.Some? {
        error := postError;
        saving := false;
        return false;
      }
      saving := false;
      return true;
    }
  }
}
