// The enable/disable flag of cmdutils/switches: a set of named items, each
// enabled or disabled by default, configured by a comma-separated list such as
// "*,-runner-b" in which "*" restores the defaults, "-name" disables an item
// and "name" enables it, later tokens overriding earlier ones.

module Switches {
  import opened Kube
  import opened Strings

  /** The token that stands for every item with its default setting. */
  const All: string := "*"

  const DisablePrefix: string := "-"

  /** Disable(name): the token that disables `name`. */
  function Disable(name: string): (r: string)
    ensures HasPrefix(r, DisablePrefix)
    ensures TrimPrefix(r, DisablePrefix) == name
  {
    DisablePrefix + name
  }

  /** Reading a missing key of a Go map[string]bool yields false. */
  predicate EnabledIn(m: map<string, bool>, name: string)
  {
    name in m && m[name]
  }

  // ---------------------------------------------------------------------------
  // prepareSettings: turning a token list into a settings map

  /** A token that names `name`, either enabling or disabling it. */
  predicate Mentions(token: string, name: string)
  {
    token != All && TrimPrefix(token, DisablePrefix) == name
  }

  /** The effect of one token: "*" is skipped, any other token sets its name. */
  function ApplyToken(m: map<string, bool>, token: string): map<string, bool>
  {
    if token == All then m
    else m[TrimPrefix(token, DisablePrefix) := !HasPrefix(token, DisablePrefix)]
  }

  /** The tokens applied left to right, starting from `base`. */
  function ApplyTokens(base: map<string, bool>, tokens: seq<string>): map<string, bool>
    decreases |tokens|
  {
    if |tokens| == 0 then base
    else ApplyToken(ApplyTokens(base, tokens[..|tokens| - 1]), tokens[|tokens| - 1])
  }

  /**
   * The settings map prepareSettings builds: empty for the single empty token,
   * otherwise the tokens applied to a copy of the defaults when "*" is among
   * them, or to an empty map when it is not.
   */
  function Prepared(defaults: map<string, bool>, tokens: seq<string>): map<string, bool>
  {
    if |tokens| == 1 && tokens[0] == "" then map[]
    else ApplyTokens(if All in tokens then defaults else map[], tokens)
  }

  /** The position of the last token that mentions `name`, if any. */
  function LastMention(tokens: seq<string>, name: string): (r: Option<nat>)
    ensures r.Some? ==> r.value < |tokens| && Mentions(tokens[r.value], name)
    ensures r.Some? ==> forall j :: r.value < j < |tokens| ==> !Mentions(tokens[j], name)
    ensures r.None? ==> forall j :: 0 <= j < |tokens| ==> !Mentions(tokens[j], name)
    decreases |tokens|
  {
    if |tokens| == 0 then None
    else if Mentions(tokens[|tokens| - 1], name) then Some(|tokens| - 1)
    else LastMention(tokens[..|tokens| - 1], name)
  }

  /**
   * Later tokens win: a name takes the setting of the last token that mentions
   * it, and a name no token mentions keeps its value from `base`.
   */
  lemma {:induction false} ApplyTokensLastWins(base: map<string, bool>, tokens: seq<string>, name: string)
    ensures var r := ApplyTokens(base, tokens);
      match LastMention(tokens, name)
      case Some(i) => name in r && r[name] == !HasPrefix(tokens[i], DisablePrefix)
      case None => (name in r <==> name in base) && (name in base ==> r[name] == base[name])
    decreases |tokens|
  {
    if |tokens| > 0 {
      var init := tokens[..|tokens| - 1];
      ApplyTokensLastWins(base, init, name);
      if !Mentions(tokens[|tokens| - 1], name) {
        assert LastMention(tokens, name) == LastMention(init, name);
      }
    }
  }

  /**
   * What prepareSettings promises for each name: the last token that mentions
   * it decides; otherwise the default applies when "*" is present; otherwise
   * the name is absent, i.e. disabled. The single empty token yields nothing.
   */
  lemma PreparedMeaning(defaults: map<string, bool>, tokens: seq<string>, name: string)
    requires !(|tokens| == 1 && tokens[0] == "")
    ensures var r := Prepared(defaults, tokens);
      match LastMention(tokens, name)
      case Some(i) => name in r && r[name] == !HasPrefix(tokens[i], DisablePrefix)
      case None =>
        (All in tokens && name in defaults ==> name in r && r[name] == defaults[name])
        && (!(All in tokens && name in defaults) ==> name !in r)
  {
    ApplyTokensLastWins(if All in tokens then defaults else map[], tokens, name);
  }

  /** prepareSettings' copy of the defaults, one entry at a time. */
  method CopyDefaults(defaults: map<string, bool>) returns (res: map<string, bool>)
    ensures res == defaults
  {
    res := map[];
    var rest := defaults.Keys;
    while rest != {}
      invariant rest <= defaults.Keys
      invariant res == map k | k in defaults.Keys - rest :: defaults[k]
      decreases |rest|
    {
      var k :| k in rest;
      res := res[k := defaults[k]];
      rest := rest - {k};
    }
  }

  /** prepareSettings: copies the defaults if "*" is present, then applies the other tokens in order. */
  method PrepareSettings(defaults: map<string, bool>, tokens: seq<string>) returns (res: map<string, bool>)
    ensures res == Prepared(defaults, tokens)
  {
    res := map[];
    if |tokens| == 1 && tokens[0] == "" {
      return;
    }
    var i := 0;
    while i < |tokens|
      invariant 0 <= i <= |tokens|
      invariant All !in tokens[..i]
      invariant res == map[]
    {
      if tokens[i] == All {
        res := CopyDefaults(defaults);
        break;
      }
      assert tokens[..i + 1] == tokens[..i] + [tokens[i]];
      i := i + 1;
    }
    assert i == |tokens| ==> tokens[..i] == tokens;
    ghost var base := res;
    assert base == if All in tokens then defaults else map[];
    var j := 0;
    while j < |tokens|
      invariant 0 <= j <= |tokens|
      invariant res == ApplyTokens(base, tokens[..j])
    {
      assert tokens[..j + 1][..j] == tokens[..j];
      if tokens[j] != All {
        res := res[TrimPrefix(tokens[j], DisablePrefix) := !HasPrefix(tokens[j], DisablePrefix)];
      }
      j := j + 1;
    }
    assert tokens[..j] == tokens;
  }

  // ---------------------------------------------------------------------------
  // Set: validating and applying a flag value

  datatype SetError = UnknownItem(name: string)

  /** A token is acceptable when, without its "-", it is "*" or a default name. */
  predicate Known(defaults: map<string, bool>, token: string)
  {
    TrimPrefix(token, DisablePrefix) == All || TrimPrefix(token, DisablePrefix) in defaults
  }

  /** The name of the first unacceptable token, if any. */
  function FirstUnknown(defaults: map<string, bool>, tokens: seq<string>): (r: Option<string>)
    ensures r.None? <==> forall j :: 0 <= j < |tokens| ==> Known(defaults, tokens[j])
    ensures r.Some? ==> exists i :: (0 <= i < |tokens| && !Known(defaults, tokens[i])
      && r.value == TrimPrefix(tokens[i], DisablePrefix)
      && forall j :: 0 <= j < i ==> Known(defaults, tokens[j]))
    decreases |tokens|
  {
    if |tokens| == 0 then None
    else if !Known(defaults, tokens[0]) then Some(TrimPrefix(tokens[0], DisablePrefix))
    else
      var r := FirstUnknown(defaults, tokens[1..]);
      assert r.Some? ==> exists i :: (0 <= i < |tokens| && !Known(defaults, tokens[i])
        && r.value == TrimPrefix(tokens[i], DisablePrefix)
        && forall j :: 0 <= j < i ==> Known(defaults, tokens[j])) by {
        if r.Some? {
          var i :| 0 <= i < |tokens[1..]| && !Known(defaults, tokens[1..][i])
            && r.value == TrimPrefix(tokens[1..][i], DisablePrefix)
            && forall j :: 0 <= j < i ==> Known(defaults, tokens[1..][j]);
          assert !Known(defaults, tokens[i + 1]);
        }
      }
      r
  }

  /** The token list a flag value is read as: its comma-separated fields, or the single empty token for "". */
  function InputTokens(val: string): seq<string>
  {
    if val != "" then Split(val, ',') else [""]
  }

  /** Set's validation, which is skipped for the empty value. */
  function Validate(defaults: map<string, bool>, val: string): Option<SetError>
  {
    if val == "" then None
    else match FirstUnknown(defaults, Split(val, ','))
      case Some(n) => Some(UnknownItem(n))
      case None => None
  }

  // ---------------------------------------------------------------------------
  // String: the canonical rendering

  /** How String() writes one item. */
  function Token(name: string, settings: map<string, bool>): string
  {
    if EnabledIn(settings, name) then name else DisablePrefix + name
  }

  /** String()'s accumulation step: a comma is written only after a non-empty result. */
  function Step(acc: string, token: string): string
  {
    if acc != "" then acc + "," + token else acc + token
  }

  function Render(acc: string, names: seq<string>, settings: map<string, bool>): string
    decreases |names|
  {
    if |names| == 0 then acc
    else Render(Step(acc, Token(names[0], settings)), names[1..], settings)
  }

  lemma RenderStep(acc: string, names: seq<string>, i: nat, settings: map<string, bool>)
    requires i < |names|
    ensures Render(acc, names[i..], settings) == Render(Step(acc, Token(names[i], settings)), names[i + 1..], settings)
  {
    assert names[i..][1..] == names[i + 1..];
  }

  /** What String() returns: the default names in ascending order, rendered one by one. */
  ghost function Rendering(defaults: map<string, bool>, settings: map<string, bool>): string
  {
    Render("", SortedOf(defaults.Keys), settings)
  }

  function TokensOf(names: seq<string>, settings: map<string, bool>): (r: seq<string>)
    ensures |r| == |names|
    ensures forall i :: 0 <= i < |names| ==> r[i] == Token(names[i], settings)
  {
    seq(|names|, i requires 0 <= i < |names| => Token(names[i], settings))
  }

  /** Once the result is non-empty, rendering appends each token after a comma. */
  lemma {:induction false} RenderAfterNonEmpty(acc: string, names: seq<string>, settings: map<string, bool>)
    requires acc != ""
    ensures Render(acc, names, settings) ==
      if |names| == 0 then acc else acc + "," + Join(TokensOf(names, settings), ',')
    decreases |names|
  {
    if |names| > 0 {
      var t := Token(names[0], settings);
      RenderAfterNonEmpty(acc + "," + t, names[1..], settings);
      assert TokensOf(names, settings)[1..] == TokensOf(names[1..], settings);
    }
  }

  /** With non-empty names the rendering is the comma-join of the item tokens. */
  lemma RenderIsJoin(names: seq<string>, settings: map<string, bool>)
    requires forall i :: 0 <= i < |names| ==> names[i] != ""
    ensures Render("", names, settings) == Join(TokensOf(names, settings), ',')
  {
    if |names| > 0 {
      var t := Token(names[0], settings);
      assert Step("", t) == t;
      RenderAfterNonEmpty(t, names[1..], settings);
      assert TokensOf(names, settings)[1..] == TokensOf(names[1..], settings);
    }
  }

  /**
   * The names the round trip works for: non-empty, not "*", no leading "-",
   * and nothing the CSV reader treats specially (comma, double quote, line end).
   */
  predicate PlainName(n: string)
  {
    n != "" && n != All && !HasPrefix(n, DisablePrefix) && ',' !in n
    && '"' !in n && '\n' !in n && '\r' !in n
  }

  lemma TokenShape(n: string, settings: map<string, bool>)
    requires PlainName(n)
    ensures Token(n, settings) != All
    ensures TrimPrefix(Token(n, settings), DisablePrefix) == n
    ensures HasPrefix(Token(n, settings), DisablePrefix) <==> !EnabledIn(settings, n)
    ensures ',' !in Token(n, settings)
  {
    if !EnabledIn(settings, n) {
      assert HasPrefix(DisablePrefix + n, DisablePrefix);
    }
  }

  /** For plain names, the rendering reads back as exactly the item tokens. */
  lemma RenderingReadsBack(defaults: map<string, bool>, settings: map<string, bool>)
    requires forall n :: n in defaults ==> PlainName(n)
    requires defaults != map[]
    ensures InputTokens(Rendering(defaults, settings)) == TokensOf(SortedOf(defaults.Keys), settings)
  {
    var names := SortedOf(defaults.Keys);
    var toks := TokensOf(names, settings);
    forall i | 0 <= i < |names| ensures PlainName(names[i]) {
      assert names[i] in defaults.Keys;
    }
    RenderIsJoin(names, settings);
    forall i | 0 <= i < |toks| ensures ',' !in toks[i] {
      TokenShape(names[i], settings);
    }
    SplitJoin(toks, ',');
    assert |names| > 0 by {
      var k :| k in defaults.Keys;
    }
    JoinNonEmpty(toks, ',');
  }

  /** The token of each name mentions that name and no other token does. */
  lemma OnlyOwnTokenMentions(names: seq<string>, settings: map<string, bool>, i: int)
    requires StrictlySorted(names)
    requires forall j :: 0 <= j < |names| ==> PlainName(names[j])
    requires 0 <= i < |names|
    ensures LastMention(TokensOf(names, settings), names[i]) == Some(i)
  {
    var toks := TokensOf(names, settings);
    forall j | 0 <= j < |toks| ensures Mentions(toks[j], names[i]) <==> j == i {
      TokenShape(names[j], settings);
      if j != i {
        StrictlySortedDistinct(names, i, j);
      }
    }
    var r := LastMention(toks, names[i]);
    assert r.Some? ==> r.value == i;
  }

  /** Every token of the rendering is acceptable to Set, and none is "*". */
  lemma RenderedTokensKnown(defaults: map<string, bool>, settings: map<string, bool>)
    requires forall n :: n in defaults ==> PlainName(n)
    ensures var toks := TokensOf(SortedOf(defaults.Keys), settings);
      forall j :: 0 <= j < |toks| ==> Known(defaults, toks[j]) && toks[j] != All
  {
    var names := SortedOf(defaults.Keys);
    var toks := TokensOf(names, settings);
    forall j | 0 <= j < |toks| ensures Known(defaults, toks[j]) && toks[j] != All {
      assert names[j] in defaults.Keys;
      TokenShape(names[j], settings);
    }
  }

  /** Applying the item tokens of the sorted names sets each name as it was. */
  lemma TokensRestoreItem(defaults: map<string, bool>, settings: map<string, bool>, names: seq<string>, i: int)
    requires StrictlySorted(names)
    requires forall j :: 0 <= j < |names| ==> PlainName(names[j])
    requires 0 <= i < |names|
    ensures EnabledIn(Prepared(defaults, TokensOf(names, settings)), names[i]) == EnabledIn(settings, names[i])
  {
    var toks := TokensOf(names, settings);
    forall j | 0 <= j < |toks| ensures toks[j] != All {
      TokenShape(names[j], settings);
    }
    assert All !in toks;
    assert toks != [""] by {
      TokenShape(names[0], settings);
    }
    OnlyOwnTokenMentions(names, settings, i);
    TokenShape(names[i], settings);
    PreparedMeaning(defaults, toks, names[i]);
  }

  /** Reading the rendering back restores one default item. */
  lemma RoundTripItem(defaults: map<string, bool>, settings: map<string, bool>, n: string)
    requires forall n :: n in defaults ==> PlainName(n)
    requires n in defaults
    ensures EnabledIn(Prepared(defaults, InputTokens(Rendering(defaults, settings))), n) == EnabledIn(settings, n)
  {
    var names := SortedOf(defaults.Keys);
    RenderingReadsBack(defaults, settings);
    forall j | 0 <= j < |names| ensures PlainName(names[j]) {
      assert names[j] in defaults.Keys;
    }
    assert n in names;
    var i :| 0 <= i < |names| && names[i] == n;
    TokensRestoreItem(defaults, settings, names, i);
  }

  /**
   * Round trip: feeding String()'s output back to Set is accepted and leaves
   * every default item exactly as enabled or disabled as it was.
   */
  lemma RoundTrip(defaults: map<string, bool>, settings: map<string, bool>)
    requires forall n :: n in defaults ==> PlainName(n)
    ensures Validate(defaults, Rendering(defaults, settings)).None?
    ensures forall n :: n in defaults ==>
      EnabledIn(Prepared(defaults, InputTokens(Rendering(defaults, settings))), n) == EnabledIn(settings, n)
  {
    if defaults != map[] {
      RenderingReadsBack(defaults, settings);
      RenderedTokensKnown(defaults, settings);
    }
    forall n | n in defaults
      ensures EnabledIn(Prepared(defaults, InputTokens(Rendering(defaults, settings))), n) == EnabledIn(settings, n)
    {
      RoundTripItem(defaults, settings, n);
    }
  }

  lemma JoinNonEmpty(parts: seq<string>, sep: char)
    requires |parts| > 0 && parts[0] != ""
    ensures Join(parts, sep) != ""
  {
    if |parts| > 1 {
      assert Join(parts, sep)[0] == parts[0][0];
    }
  }

  // ---------------------------------------------------------------------------
  // The flag value

  ghost function EnabledNames(m: map<string, bool>): set<string>
  {
    set k | k in m && m[k]
  }

  ghost function DisabledNames(m: map<string, bool>): set<string>
  {
    set k | k in m && !m[k]
  }

  /** EnabledByDefault and DisabledByDefault split All into two disjoint parts. */
  lemma ByDefaultPartition(defaults: map<string, bool>)
    ensures EnabledNames(defaults) + DisabledNames(defaults) == defaults.Keys
    ensures EnabledNames(defaults) * DisabledNames(defaults) == {}
  {
  }

  /** String()'s loop over the sorted names: "name" if enabled, "-name" otherwise, comma-separated. */
  method RenderNames(vals: seq<string>, settings: map<string, bool>) returns (res: string)
    ensures res == Render("", vals, settings)
  {
    res := "";
    var i := 0;
    while i < |vals|
      invariant 0 <= i <= |vals|
      invariant Render(res, vals[i..], settings) == Render("", vals, settings)
    {
      var v := vals[i];
      ghost var before := res;
      RenderStep(before, vals, i, settings);
      if res != "" {
        res := res + ",";
      }
      if v in settings && settings[v] {
        res := res + v;
      } else {
        res := res + ("-" + v);
      }
      assert res == Step(before, Token(v, settings));
      i := i + 1;
    }
    assert vals[i..] == [];
  }

  class Switches {
    var defaults: map<string, bool>
    var settings: map<string, bool>

    /**
     * Make(names...) (and New, which returns a pointer to the same value): the
     * names become the defaults, read as a token list against empty defaults,
     * and nothing is set yet, so every item reads as disabled.
     */
    constructor Make(names: seq<string>)
      ensures defaults == Prepared(map[], names)
      ensures settings == map[]
      ensures forall n :: !Enabled(n)
    {
      defaults := map[];
      settings := map[];
      new;
      defaults := PrepareSettings(map[], names);
    }

    /** Enabled(name): false for names that were never set. */
    predicate Enabled(name: string)
      reads this
    {
      EnabledIn(settings, name)
    }

    /** String(): the defaults in ascending order, "name" if enabled and "-name" otherwise, comma-separated. */
    method String() returns (res: string)
      ensures res == Rendering(defaults, settings)
    {
      var vals := SortStrings(defaults.Keys);
      res := RenderNames(vals, settings);
    }

    /**
     * Set(val): rejects the value, changing nothing, when a token names neither
     * "*" nor a default; otherwise replaces the settings with the prepared token
     * list ("" clears them).
     */
    method Set(val: string) returns (err: Option<SetError>)
      modifies this
      ensures defaults == old(defaults)
      ensures err == Validate(defaults, val)
      ensures err.Some? ==> settings == old(settings)
      ensures err.None? ==> settings == Prepared(defaults, InputTokens(val))
    {
      var tokens;
      if val != "" {
        tokens := Split(val, ',');
        var i := 0;
        while i < |tokens|
          invariant 0 <= i <= |tokens|
          invariant FirstUnknown(defaults, tokens) == FirstUnknown(defaults, tokens[i..])
        {
          assert tokens[i..][1..] == tokens[i + 1..];
          var trimmed := TrimPrefix(tokens[i], DisablePrefix);
          if trimmed != All && trimmed !in defaults {
            return Some(UnknownItem(trimmed));
          }
          i := i + 1;
        }
      } else {
        tokens := [""];
      }
      settings := PrepareSettings(defaults, tokens);
      err := None;
    }

    /** Restoring the settings from their own rendering changes no item, for plain default names. */
    method SetToString() returns (err: Option<SetError>)
      requires forall n :: n in defaults ==> PlainName(n)
      modifies this
      ensures err.None?
      ensures defaults == old(defaults)
      ensures forall n :: n in defaults ==> Enabled(n) == old(Enabled(n))
    {
      var s := String();
      RoundTrip(defaults, settings);
      err := Set(s);
    }

    /** All(): the names of all items. */
    method AllNames() returns (names: set<string>)
      ensures names == defaults.Keys
    {
      names := {};
      var rest := defaults.Keys;
      while rest != {}
        invariant rest <= defaults.Keys
        invariant names == defaults.Keys - rest
        decreases |rest|
      {
        var k :| k in rest;
        names := names + {k};
        rest := rest - {k};
      }
    }

    /** Active(): the names currently enabled. */
    method Active() returns (names: set<string>)
      ensures forall n :: n in names <==> Enabled(n)
    {
      names := {};
      var rest := settings.Keys;
      while rest != {}
        invariant rest <= settings.Keys
        invariant names == EnabledNames(settings) - rest
        decreases |rest|
      {
        var k :| k in rest;
        if settings[k] {
          names := names + {k};
        }
        rest := rest - {k};
      }
    }

    /** EnabledByDefault(): the names enabled by default. */
    method EnabledByDefault() returns (names: set<string>)
      ensures names == EnabledNames(defaults)
    {
      names := {};
      var rest := defaults.Keys;
      while rest != {}
        invariant rest <= defaults.Keys
        invariant names == EnabledNames(defaults) - rest
        decreases |rest|
      {
        var k :| k in rest;
        if defaults[k] {
          names := names + {k};
        }
        rest := rest - {k};
      }
    }

    /** DisabledByDefault(): the names disabled by default. */
    method DisabledByDefault() returns (names: set<string>)
      ensures names == DisabledNames(defaults)
    {
      names := {};
      var rest := defaults.Keys;
      while rest != {}
        invariant rest <= defaults.Keys
        invariant names == DisabledNames(defaults) - rest
        decreases |rest|
      {
        var k :| k in rest;
        if !defaults[k] {
          names := names + {k};
        }
        rest := rest - {k};
      }
    }
  }
}
