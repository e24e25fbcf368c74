/** OAI-PMH argument checking (section 3.2 of OAI-PMH 2.0, and the exclusive resumptionToken of section 3.5). */
module Arguments {
  import opened Sets
  import opened Text

  datatype Error = Exclusive | Missing(arg: string) | Illegal(key: string)

  const IGNORED: set<string> := {"action", "controller", "verb"}

  predicate BlankArg(params: map<string, string>, arg: string) {
    arg !in params || Blank(params[arg])
  }

  /** A blank metadataPrefix is excused by the mere presence of a token. */
  predicate Excused(params: map<string, string>, arg: string) {
    arg == "metadataPrefix" && "resumptionToken" in params
  }

  predicate IsMissing(params: map<string, string>, required: seq<string>, e: Error) {
    e.Missing? && e.arg in required && e.arg !in IGNORED && BlankArg(params, e.arg) && !Excused(params, e.arg)
  }

  ghost predicate Acceptable(params: map<string, string>, required: seq<string>, allowed: set<string>) {
    && ("resumptionToken" in params ==> params.Keys - IGNORED <= {"resumptionToken"})
    && (forall arg :: arg in required && arg !in IGNORED ==> !BlankArg(params, arg) || Excused(params, arg))
    && params.Keys - IGNORED <= allowed
  }

  method ValidateArguments(params: map<string, string>, required: seq<string>, allowed: set<string>)
    returns (errors: seq<Error>)
    ensures Exclusive in errors <==>
            "resumptionToken" in params && !(params.Keys <= {"action", "controller", "verb", "resumptionToken"})
    ensures forall arg :: Missing(arg) in errors <==>
              && arg in required && arg !in {"action", "controller", "verb"}
              && (arg !in params || Blank(params[arg]))
              && !(arg == "metadataPrefix" && "resumptionToken" in params)
    ensures forall key :: Illegal(key) in errors <==>
              key in params && key !in {"action", "controller", "verb"} && key !in allowed
    ensures errors == [] <==> Acceptable(params, required, allowed)
  {
    errors := [];
    var keys := params.Keys - IGNORED;
    if "resumptionToken" in params && |keys| > 1 { errors := errors + [Exclusive]; }
    assert "resumptionToken" in params ==> (|keys| > 1 <==> !(keys <= {"resumptionToken"})) by {
      if "resumptionToken" in params { SingletonSize(keys, "resumptionToken"); }
    }
    for i := 0 to |required|
      invariant Exclusive in errors <==> "resumptionToken" in params && !(keys <= {"resumptionToken"})
      invariant forall e :: e in errors ==> e.Exclusive? || (e.Missing? && e.arg in required[..i])
      invariant forall k :: 0 <= k < i ==>
                  (Missing(required[k]) in errors <==> IsMissing(params, required, Missing(required[k])))
    {
      var arg := required[i];
      if arg !in IGNORED && BlankArg(params, arg) && !Excused(params, arg) {
        errors := errors + [Missing(arg)];
      }
    }
    var todo := keys;
    while todo != {}
      invariant todo <= keys
      invariant Exclusive in errors <==> "resumptionToken" in params && !(keys <= {"resumptionToken"})
      invariant forall arg :: Missing(arg) in errors <==> IsMissing(params, required, Missing(arg))
      invariant forall key :: Illegal(key) in errors <==> key in keys - todo && key !in allowed
    {
      ghost var any := Pick(todo);
      var key :| key in todo;
      if key !in allowed { errors := errors + [Illegal(key)]; }
      todo := todo - {key};
    }
    NoErrorsIff(errors, params, required, allowed);
    OnlyToken(params);
  }

  lemma OnlyToken(params: map<string, string>)
    ensures params.Keys - IGNORED <= {"resumptionToken"} <==>
            params.Keys <= {"action", "controller", "verb", "resumptionToken"}
  {
    assert IGNORED + {"resumptionToken"} == {"action", "controller", "verb", "resumptionToken"};
    if params.Keys <= {"action", "controller", "verb", "resumptionToken"} {
      forall k | k in params.Keys - IGNORED ensures k in {"resumptionToken"} {
        assert k in IGNORED + {"resumptionToken"};
      }
    } else {
      var k :| k in params.Keys && k !in IGNORED + {"resumptionToken"};
    }
  }

  lemma NoErrorsIff(errors: seq<Error>, params: map<string, string>, required: seq<string>, allowed: set<string>)
    requires Exclusive in errors <==> "resumptionToken" in params && !(params.Keys - IGNORED <= {"resumptionToken"})
    requires forall arg :: Missing(arg) in errors <==> IsMissing(params, required, Missing(arg))
    requires forall key :: Illegal(key) in errors <==> key in params.Keys - IGNORED && key !in allowed
    ensures errors == [] <==> Acceptable(params, required, allowed)
  {
    if errors == [] {
      forall arg | arg in required && arg !in IGNORED ensures !BlankArg(params, arg) || Excused(params, arg) {
        assert Missing(arg) !in errors;
      }
      forall key | key in params.Keys - IGNORED ensures key in allowed { assert Illegal(key) !in errors; }
    } else {
      assert errors[0] in errors;
      match errors[0]
      case Exclusive =>
      case Missing(arg) => assert IsMissing(params, required, Missing(arg));
      case Illegal(key) => assert key in params.Keys - IGNORED;
    }
  }

  lemma SingletonSize(keys: set<string>, k: string)
    requires k in keys
    ensures |keys| > 1 <==> !(keys <= {k})
  {
    if keys <= {k} {
      assert keys == {k};
    } else {
      var x := Pick(keys - {k});
      SubsetSize({x, k}, keys);
      assert |{x, k}| == 2;
    }
  }
}
