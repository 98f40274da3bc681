/**
 * The variable table `Env` (a map from names to syntax trees that only
 * `Set` writes), its reader `envValue`, and the evaluator, which in this
 * program hands every tree back unchanged.
 */
module Environment {
  import opened Lexer
  import opened Syntax

  class Env {
    var vars: map<seq<byte>, Ast>

    /** Only `Set` stores into the table, and it always stores a `Num`. */
    ghost predicate Valid()
      reads this
    {
      forall k :: k in vars ==> vars[k].Num?
    }

    constructor ()
      ensures Valid() && vars == map[]
    {
      vars := map[];
    }
  }

  /** `NewEnv`: a fresh, empty table. */
  method NewEnv() returns (env: Env)
    ensures fresh(env)
    ensures env.Valid() && env.vars == map[]
  {
    env := new Env();
  }

  /** `Set`: binds `key` to `Num(n)`; every other binding stays as it was. */
  method Set(env: Env, key: seq<byte>, n: int)
    requires env.Valid()
    modifies env
    ensures env.Valid()
    ensures env.vars == old(env.vars)[key := Num(n)]
  {
    env.vars := env.vars[key := Num(n)];
  }

  /**
   * `envValue`: a missing key gives `(0, false)`; a bound key gives the
   * stored number rendered in decimal and read back with `getNum`, which is
   * the stored number itself whenever that is non-negative.
   */
  method EnvValue(env: Env, key: seq<byte>) returns (n: int, ok: bool)
    requires env.Valid()
    ensures ok <==> key in env.vars
    ensures !ok ==> n == 0
    ensures ok ==> n == Decimal(env.vars[key].String())
    ensures ok && env.vars[key].value >= 0 ==> n == env.vars[key].value
  {
    if key in env.vars {
      var v := env.vars[key];
      var rest;
      n, rest := GetNum(v.String());
      return n, true;
    }
    return 0, false;
  }

  /**
   * `Set` followed by `envValue` on the same key returns the stored
   * non-negative number, and leaves the other bindings alone.
   */
  method SetThenEnvValue(env: Env, key: seq<byte>, n: int) returns (v: int, ok: bool)
    requires env.Valid() && n >= 0
    modifies env
    ensures env.Valid()
    ensures ok && v == n
    ensures forall k :: k != key && k in old(env.vars) ==> k in env.vars && env.vars[k] == old(env.vars)[k]
  {
    Set(env, key, n);
    v, ok := EnvValue(env, key);
  }

  /** A fresh table reports every key as unbound. */
  method NewEnvIsEmpty(key: seq<byte>) returns (v: int, ok: bool)
    ensures !ok && v == 0
  {
    var env := NewEnv();
    v, ok := EnvValue(env, key);
  }

  /** `envValue` reads a stored `-5` back as `2535`: `'-'` counts as digit 253. */
  lemma NegativeValueMisread()
    ensures Decimal(Num(-5).String()) == 2535
  {
  }

  /**
   * `Eval`: every node's `Eval` and the top-level `Eval` return the tree
   * they are given; the table is neither read nor written.
   */
  function Eval(ast: Ast, env: Env): (r: Ast)
    ensures r == ast
  {
    ast
  }
}
