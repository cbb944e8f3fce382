/** The session as the object the Console holds, with its cancellable scope contexts. */
module SessionState {
  import S = Session

  class ScopeContext {
    var done: bool

    constructor ()
      ensures !done
    {
      done := false;
    }
  }

  class State {
    var closed: bool
    var allowedContexts: set<string>
    var allowedNamespaces: set<string>
    var scope: S.Scope
    var scopeContext: ScopeContext?
    ghost var issued: seq<ScopeContext>  // every scope context ever opened, in order of generation

    ghost function Dones(): (dones: seq<bool>)
      reads this, issued
    {
      seq(|issued|, k requires 0 <= k < |issued| reads this, issued => issued[k].done)
    }

    ghost function Abs(): S.Session
      reads this, issued
    {
      S.Session(closed, allowedContexts, allowedNamespaces, scope, Dones())
    }

    ghost predicate Valid()
      reads this, issued
    {
      && (forall i, j :: 0 <= i < j < |issued| ==> issued[i] != issued[j])
      && scopeContext == (if issued == [] then null else issued[|issued| - 1])
      && S.Valid(Abs())
    }

    constructor (contextNames: set<string>)
      requires contextNames != {} && "" !in contextNames
      ensures Valid() && Abs() == S.Initial(contextNames) && issued == []
    {
      closed, allowedContexts, allowedNamespaces, scope := false, contextNames, {}, S.NoScope;
      scopeContext, issued := null, [];
    }

    /** Null exactly when a context name is empty or repeated, or there is none. */
    static method New(contextNames: seq<string>) returns (state: State?)
      ensures state == null <==>
        contextNames == [] || "" in contextNames ||
        exists i, j :: 0 <= i < j < |contextNames| && contextNames[i] == contextNames[j]
      ensures state != null ==>
        state.Valid() && fresh(state) && state.Abs() == S.Initial(set name | name in contextNames)
    {
      var allowed := {};
      for i := 0 to |contextNames|
        invariant allowed == set name | name in contextNames[..i]
        invariant "" !in contextNames[..i]
        invariant forall j, k :: 0 <= j < k < i ==> contextNames[j] != contextNames[k]
      {
        if contextNames[i] == "" || contextNames[i] in allowed {
          return null;
        }
        allowed := allowed + {contextNames[i]};
      }
      assert contextNames[..|contextNames|] == contextNames;
      assert contextNames == [] || contextNames[0] in allowed;
      if allowed == {} {
        return null;
      }
      state := new State(allowed);
    }

    method AdvanceLocked()
      requires Valid()
      modifies this, issued
      ensures |issued| == |old(issued)| + 1 && old(issued) <= issued && fresh(issued[|old(issued)|])
      ensures forall i, j :: 0 <= i < j < |issued| ==> issued[i] != issued[j]
      ensures scopeContext == issued[|issued| - 1]
      ensures Abs() == S.Advance(old(Abs()))
    {
      if scopeContext != null {
        scopeContext.done := true;
      }
      scope := scope.(generation := scope.generation + 1);
      scopeContext := new ScopeContext();
      issued := issued + [scopeContext];
      assert Dones() == S.CancelLast(old(Dones())) + [false];
    }

    method SelectContext(name: string) returns (r: S.Result<S.Scope>)
      requires Valid()
      modifies this, issued
      ensures Valid() && old(issued) <= issued && fresh(issued[|old(issued)|..])
      ensures (Abs(), r) == S.SelectContext(old(Abs()), name)
      ensures r.Ok? <==> !old(closed) && name in allowedContexts
      ensures r.Ok? ==> scope == r.value == S.Scope(name, "", old(scope).generation + 1) && allowedNamespaces == {}
    {
      S.StepKeepsValid(Abs(), S.OpSelectContext(name));
      if closed {
        return S.Err(S.SessionClosed);
      }
      if name !in allowedContexts {
        return S.Err(S.UnknownContext);
      }
      AdvanceLocked();
      label advanced:
      scope := scope.(context := name, namespace := "");
      allowedNamespaces := {};
      assert Dones() == old@advanced(Dones());
      return S.Ok(scope);
    }

    method AllowNamespaces(generation: nat, names: seq<string>) returns (accepted: bool)
      requires Valid()
      modifies this
      ensures Valid() && issued == old(issued)
      ensures (Abs(), accepted) == S.AllowNamespaces(old(Abs()), generation, names)
      ensures accepted <==> !closed && generation == scope.generation && scope.context != ""
      ensures accepted ==> forall name :: name in allowedNamespaces <==> name in names && name != ""
    {
      S.StepKeepsValid(Abs(), S.OpAllowNamespaces(generation, names));
      if closed || generation != scope.generation || scope.context == "" {
        return false;
      }
      var allowed := {};
      for i := 0 to |names|
        invariant allowed == S.NonEmpty(names[..i])
        invariant unchanged(this)
      {
        if names[i] != "" {
          allowed := allowed + {names[i]};
        }
      }
      assert names[..|names|] == names;
      allowedNamespaces := allowed;
      assert Dones() == old(Dones());
      return true;
    }

    method SelectNamespace(name: string) returns (r: S.Result<S.Scope>)
      requires Valid()
      modifies this, issued
      ensures Valid() && old(issued) <= issued && fresh(issued[|old(issued)|..])
      ensures (Abs(), r) == S.SelectNamespace(old(Abs()), name)
    {
      r := SelectNamespaceLocked(name);
    }

    method SelectNamespaceAt(name: string, generation: nat) returns (r: S.Result<S.Scope>)
      requires Valid()
      modifies this, issued
      ensures Valid() && old(issued) <= issued && fresh(issued[|old(issued)|..])
      ensures (Abs(), r) == S.SelectNamespaceAt(old(Abs()), name, generation)
      ensures r.Ok? <==>
        !old(closed) && 0 != generation == old(scope).generation && name in old(allowedNamespaces)
      ensures r.Ok? ==> scope == r.value == S.Scope(old(scope).context, name, generation + 1)
    {
      if generation == 0 || generation != scope.generation {
        return S.Err(S.StaleScope);
      }
      r := SelectNamespaceLocked(name);
    }

    method SelectNamespaceLocked(name: string) returns (r: S.Result<S.Scope>)
      requires Valid()
      modifies this, issued
      ensures Valid() && old(issued) <= issued && fresh(issued[|old(issued)|..])
      ensures (Abs(), r) == S.SelectNamespace(old(Abs()), name)
      ensures r.Ok? <==> !old(closed) && name in old(allowedNamespaces)
      ensures r.Ok? ==> scope == r.value == S.Scope(old(scope).context, name, old(scope).generation + 1)
    {
      S.StepKeepsValid(Abs(), S.OpSelectNamespace(name));
      if closed {
        return S.Err(S.SessionClosed);
      }
      if name !in allowedNamespaces {
        return S.Err(S.UnknownNamespace);
      }
      AdvanceLocked();
      label advanced:
      scope := scope.(namespace := name);
      assert Dones() == old@advanced(Dones());
      return S.Ok(scope);
    }

    /** A granted request is tied to the scope context of its own generation, not yet cancelled. */
    method RequestContext(generation: nat) returns (r: S.Result<S.Scope>, watched: ScopeContext?)
      requires Valid()
      ensures r == S.RequestContext(Abs(), generation)
      ensures r.Ok? ==> |issued| == generation && watched == issued[generation - 1] && !watched.done
    {
      if closed || generation == 0 || generation != scope.generation || scope.context == "" || scopeContext == null {
        return S.Err(S.StaleScope), null;
      }
      assert Dones()[generation - 1] == scopeContext.done;
      return S.Ok(scope), scopeContext;
    }

    method Current() returns (current: S.Scope)
      ensures current == Abs().scope
    {
      current := scope;
    }

    method Close()
      requires Valid()
      modifies this, issued
      ensures Valid() && issued == old(issued)
      ensures Abs() == S.Close(old(Abs()))
    {
      S.StepKeepsValid(Abs(), S.OpClose);
      if closed {
        return;
      }
      closed := true;
      if scopeContext != null {
        scopeContext.done := true;
      }
      scope := S.Scope("", "", scope.generation + 1);
      allowedNamespaces := {};
      assert Dones() == S.CancelLast(old(Dones()));
    }
  }
}
