/** ToolboxConfiguration: a configuration whose children are tools. It keeps a
    scope, mirrored as the property "scope", checks at validation time that the
    scope is recognised and that every tool allows it, and is ordered, compared
    and hashed by its scope alone. */
module Toolbox {
  import opened JavaLang
  import opened SortedSets
  import Config

  /** ToolboxFactory.DEFAULT_SCOPE. */
  const DefaultScope: string := "request"

  /** A tool configuration as the toolbox sees it: its key, the scopes it must
      never be used in, and the scopes it is limited to (null or empty: any). */
  datatype Tool = Tool(key: string, invalidScopes: seq<string>, validScopes: Option<seq<string>>)

  function ToolKey(t: Tool): string
  {
    t.key
  }

  /** The failures the toolbox's validate reports. */
  datatype ValidationError =
    | Inherited(cause: Config.Failure)  // from the inherited property and child validation
    | UnknownScope(scope: string)       // the scope is not a recognised one
    | InvalidScope(tool: Tool)          // the tool is not allowed in the scope

  /** The tool may be used in `scope`: not declared invalid there, and either
      unrestricted or listing it among its valid scopes. */
  predicate Allows(t: Tool, scope: string)
  {
    && scope !in t.invalidScopes
    && (t.validScopes.None? || |t.validScopes.value| == 0 || scope in t.validScopes.value)
  }

  /** The first tool, in the toolbox's order, that does not allow `scope`. */
  function FirstDisallowed(tools: seq<Tool>, scope: string): (r: Option<Tool>)
    ensures r.None? <==> forall i :: 0 <= i < |tools| ==> Allows(tools[i], scope)
    ensures r.Some? ==> exists i :: 0 <= i < |tools| && tools[i] == r.value && !Allows(r.value, scope)
                                   && forall j :: 0 <= j < i ==> Allows(tools[j], scope)
  {
    if tools == [] then None
    else if !Allows(tools[0], scope) then Some(tools[0])
    else
      var r := FirstDisallowed(tools[1..], scope);
      assert r.Some? ==> exists i :: 0 <= i < |tools[1..]| && tools[1..][i] == r.value && !Allows(r.value, scope)
                                   && forall j :: 0 <= j < i ==> Allows(tools[1..][j], scope);
      r
  }

  /** The scope checks of validate, as a verdict over (scope, recognised scopes, tools). */
  function ScopeCheck(scope: string, registered: set<string>, tools: seq<Tool>): Outcome<ValidationError>
  {
    if scope !in registered then Fail(UnknownScope(scope))
    else match FirstDisallowed(tools, scope)
      case None => Pass
      case Some(t) => Fail(InvalidScope(t))
  }

  /** The scope checks pass exactly when the scope is recognised and every tool
      allows it; they fail naming the first tool that does not. */
  lemma ScopeCheckMeaning(scope: string, registered: set<string>, tools: seq<Tool>)
    ensures ScopeCheck(scope, registered, tools) == Pass
            <==> scope in registered && forall i :: 0 <= i < |tools| ==> Allows(tools[i], scope)
    ensures scope !in registered ==> ScopeCheck(scope, registered, tools) == Fail(UnknownScope(scope))
    ensures forall i :: 0 <= i < |tools| && scope in registered && !Allows(tools[i], scope)
                        && (forall j :: 0 <= j < i ==> Allows(tools[j], scope))
                        ==> ScopeCheck(scope, registered, tools) == Fail(InvalidScope(tools[i]))
  {
    forall i | 0 <= i < |tools| && scope in registered && !Allows(tools[i], scope)
                && (forall j :: 0 <= j < i ==> Allows(tools[j], scope))
      ensures ScopeCheck(scope, registered, tools) == Fail(InvalidScope(tools[i]))
    {
      FirstDisallowedAt(tools, scope, i);
    }
  }

  /** The first disallowed tool is the one before which every tool allows the scope. */
  lemma {:induction false} FirstDisallowedAt(tools: seq<Tool>, scope: string, i: nat)
    requires i < |tools| && !Allows(tools[i], scope)
    requires forall j :: 0 <= j < i ==> Allows(tools[j], scope)
    ensures FirstDisallowed(tools, scope) == Some(tools[i])
  {
    if i > 0 {
      assert Allows(tools[0], scope);
      FirstDisallowedAt(tools[1..], scope, i - 1);
    }
  }

  /** The property setScope writes: named "scope", holding the scope string. */
  function ScopeProperty(scope: string): Config.Property
  {
    Config.Property(Some("scope"), Config.Text(scope), None)
  }

  class ToolboxConfiguration {
    /** The inherited Configuration part: the toolbox's properties. */
    const base: Config.Configuration
    var scope: string
    /** The inherited CompoundConfiguration children, in ascending key order. */
    var tools: seq<Tool>

    ghost predicate Valid()
      reads this, base
    {
      base.Valid() && Sorted(tools, ToolKey)
    }

    /** The property "scope" holds the scope field's value. */
    ghost predicate ScopeMirrored()
      reads this, base
    {
      "scope" in base.Contents() && base.Contents()["scope"] == ScopeProperty(scope)
    }

    /** The children as each key to the tool that holds it. */
    ghost function Tools(): map<string, Tool>
      reads this
    {
      ByKey(tools, ToolKey)
    }

    /** The default scope is set both as the field and as the property "scope". */
    constructor ()
      ensures Valid() && ScopeMirrored() && fresh(base)
      ensures scope == DefaultScope && Tools() == map[]
      ensures base.Contents() == map["scope" := ScopeProperty(DefaultScope)]
    {
      base := new Config.Configuration();
      scope := DefaultScope;
      tools := [];
      new;
      var _ := base.SetProperty(Some("scope"), Config.Text(scope));
    }

    /** setScope: a null scope throws before anything changes; otherwise the
        field and the property "scope" both take the new scope. */
    method SetScope(s: Option<string>) returns (r: Outcome<Config.Failure>)
      requires Valid()
      modifies this, base
      ensures Valid() && tools == old(tools)
      ensures s.None? ==> r == Fail(Config.NullPointer) && scope == old(scope)
                          && base.properties == old(base.properties)
      ensures s.Some? ==> r == Pass && scope == s.value && ScopeMirrored()
                          && base.Contents() == old(base.Contents())["scope" := ScopeProperty(s.value)]
    {
      if s.None? {
        return Fail(Config.NullPointer);
      }
      scope := s.value;
      var _ := base.SetProperty(Some("scope"), Config.Text(s.value));
      r := Pass;
    }

    /** getScope, which agrees with the property "scope" while the two are mirrored. */
    function GetScope(): (s: string)
      reads this, base
      ensures ScopeMirrored() ==> base.Contents()["scope"].value == Config.Text(s)
    {
      scope
    }

    /** addTool: a tool with the same key is replaced. */
    method AddTool(t: Tool)
      requires Valid()
      modifies this
      ensures Valid() && scope == old(scope)
      ensures Tools() == old(Tools())[t.key := t]
    {
      PutSpec(tools, t, ToolKey);
      tools := Put(tools, t, ToolKey);
    }

    /** removeTool: the tool with the same key goes. */
    method RemoveTool(t: Tool)
      requires Valid()
      modifies this
      ensures Valid() && scope == old(scope)
      ensures Tools() == old(Tools()) - {t.key}
    {
      RemoveSpec(tools, t.key, ToolKey);
      tools := Remove(tools, t.key, ToolKey);
    }

    /** getTool: scan the tools; `key.equals(...)` throws on a null key as soon
        as there is a tool to compare with. */
    method GetTool(key: Option<string>) returns (r: Result<Option<Tool>, Config.Failure>)
      requires Valid()
      ensures key.None? ==> r == if tools == [] then Ok(None) else Err(Config.NullPointer)
      ensures key.Some? ==> r == Ok(if key.value in Tools() then Some(Tools()[key.value]) else None)
      ensures r.Ok? && r.value.Some? ==> r.value.value in tools && Some(r.value.value.key) == key
    {
      var i := 0;
      while i < |tools|
        invariant 0 <= i <= |tools|
        invariant key.None? ==> i == 0
        invariant forall j :: 0 <= j < i ==> Some(tools[j].key) != key
      {
        if key.None? {
          return Err(Config.NullPointer);
        }
        if key == Some(tools[i].key) {
          ByKeyAt(tools, i, ToolKey);
          return Ok(Some(tools[i]));
        }
        i := i + 1;
      }
      if key.Some? {
        ByKeyMissing(tools, key.value, ToolKey);
      }
      return Ok(None);
    }

    /** getTools: the children, in ascending key order, one per key. */
    function GetTools(): (ts: seq<Tool>)
      requires Valid()
      reads this, base
      ensures Sorted(ts, ToolKey) && ByKey(ts, ToolKey) == Tools()
    {
      tools
    }

    /** setTools: add each tool in turn; a later tool replaces an earlier one
        with the same key. */
    method SetTools(ts: seq<Tool>)
      requires Valid()
      modifies this
      ensures Valid() && scope == old(scope)
      ensures Tools() == old(Tools()) + ByKey(ts, ToolKey)
    {
      var i := 0;
      while i < |ts|
        invariant 0 <= i <= |ts|
        invariant Valid() && scope == old(scope)
        invariant Tools() == old(Tools()) + ByKey(ts[..i], ToolKey)
      {
        var t := ts[i];
        AddTool(t);
        ByKeyConcat(ts[..i], [t], ToolKey);
        assert ts[..i + 1] == ts[..i] + [t];
        assert ByKey([t], ToolKey) == map[t.key := t];
        Config.UnionUpdate(old(Tools()), ByKey(ts[..i], ToolKey), t.key, t);
        i := i + 1;
      }
      assert ts[..i] == ts;
    }

    /** validate: the inherited validation (its verdict is `inherited`), then
        the scope must be recognised, then every tool, in order, must allow it. */
    method Validate(registered: set<string>, inherited: Outcome<Config.Failure>) returns (r: Outcome<ValidationError>)
      requires Valid()
      ensures inherited.Fail? ==> r == Fail(Inherited(inherited.error))
      ensures inherited.Pass? ==> r == ScopeCheck(scope, registered, tools)
    {
      if inherited.Fail? {
        return Fail(Inherited(inherited.error));
      }
      if scope !in registered {
        return Fail(UnknownScope(scope));
      }
      var i := 0;
      while i < |tools|
        invariant 0 <= i <= |tools|
        invariant forall j :: 0 <= j < i ==> Allows(tools[j], scope)
      {
        var tool := tools[i];
        var k := 0;
        while k < |tool.invalidScopes|
          invariant 0 <= k <= |tool.invalidScopes|
          invariant scope !in tool.invalidScopes[..k]
        {
          if scope == tool.invalidScopes[k] {
            FirstDisallowedAt(tools, scope, i);
            return Fail(InvalidScope(tool));
          }
          assert tool.invalidScopes[..k + 1] == tool.invalidScopes[..k] + [tool.invalidScopes[k]];
          k := k + 1;
        }
        assert tool.invalidScopes[..k] == tool.invalidScopes;
        if tool.validScopes.Some? && |tool.validScopes.value| > 0 {
          var validScopes := tool.validScopes.value;
          var found := false;
          var m := 0;
          while m < |validScopes|
            invariant 0 <= m <= |validScopes|
            invariant !found && scope !in validScopes[..m]
          {
            if scope == validScopes[m] {
              found := true;
              break;
            }
            assert validScopes[..m + 1] == validScopes[..m] + [validScopes[m]];
            m := m + 1;
          }
          if !found {
            assert validScopes[..m] == validScopes;
            FirstDisallowedAt(tools, scope, i);
            return Fail(InvalidScope(tool));
          }
        }
        i := i + 1;
      }
      return Pass;
    }

    /** compareTo: a non-toolbox (None) throws; two toolboxes compare as their
        scope strings do. */
    function CompareTo(other: Option<ToolboxConfiguration>): (r: Result<int, Config.Failure>)
      reads this, if other.Some? then {other.value} else {}
      ensures other.None? ==> r == Err(Config.UnsupportedOperation)
      ensures other.Some? ==> r.Ok? && (r.value == 0 <==> scope == other.value.scope)
                                    && (r.value < 0 <==> Less(scope, other.value.scope))
    {
      if other.None? then Err(Config.UnsupportedOperation)
      else
        CompareZero(scope, other.value.scope);
        Ok(Compare(scope, other.value.scope))
    }

    /** equals: another toolbox with the same scope, whatever its tools, which
        is exactly when compareTo returns 0. */
    function Equals(obj: Option<ToolboxConfiguration>): (r: bool)
      reads this, if obj.Some? then {obj.value} else {}
      ensures r <==> CompareTo(obj) == Ok(0)
    {
      obj.Some? && scope == obj.value.scope
    }

    /** hashCode: the hash of the scope string alone, String.hashCode being
        `stringHash`; tools and properties play no part. */
    function HashCode(stringHash: string -> int): (r: int)
      reads this, base
      ensures r == stringHash(GetScope())
    {
      stringHash(scope)
    }
  }

  /** Toolbox order is antisymmetric: swapping the toolboxes negates the result. */
  lemma CompareToAntisymmetric(a: ToolboxConfiguration, b: ToolboxConfiguration)
    ensures a.CompareTo(Some(b)).Ok? && b.CompareTo(Some(a)).Ok?
    ensures a.CompareTo(Some(b)).value == -b.CompareTo(Some(a)).value
  {
    CompareAntisymmetric(a.scope, b.scope);
  }

  /** Toolbox order is transitive. */
  lemma CompareToTransitive(a: ToolboxConfiguration, b: ToolboxConfiguration, c: ToolboxConfiguration)
    requires a.CompareTo(Some(b)).Ok? && a.CompareTo(Some(b)).value < 0
    requires b.CompareTo(Some(c)).Ok? && b.CompareTo(Some(c)).value < 0
    ensures a.CompareTo(Some(c)).Ok? && a.CompareTo(Some(c)).value < 0
  {
    LessTransitive(a.scope, b.scope, c.scope);
  }

  /** Equal toolboxes hash alike, whatever tools and properties they hold. */
  lemma EqualsConsistent(a: ToolboxConfiguration, b: ToolboxConfiguration, stringHash: string -> int)
    ensures a.Equals(Some(b)) ==> a.HashCode(stringHash) == b.HashCode(stringHash)
  {
  }

  /** A tool declared invalid in "session" fails a session toolbox and passes a
      request toolbox. */
  lemma InvalidScopeExample(registered: set<string>)
    requires "session" in registered && "request" in registered
    ensures var t := Tool("tool", ["session"], None);
            ScopeCheck("session", registered, [t]) == Fail(InvalidScope(t))
            && ScopeCheck("request", registered, [t]) == Pass
  {
  }

  /** A tool limited to "application" fails a page toolbox and passes an
      application toolbox. */
  lemma ValidScopesExample(registered: set<string>)
    requires "page" in registered && "application" in registered
    ensures var t := Tool("tool", [], Some(["application"]));
            ScopeCheck("page", registered, [t]) == Fail(InvalidScope(t))
            && ScopeCheck("application", registered, [t]) == Pass
  {
  }
}
