/** The template hooks of src/injest/build.rs:55-132: Rhai filters, testers and functions,
    and shortcodes. Each keeps a 64-bit execution counter that is handed to the script,
    read before the call and incremented only after a successful call. The scripts and the
    shortcode template are not modelled: each hook holds its behaviour as a function. */
module Hooks {
  import opened Wrappers
  import opened Bytes
  import opened Values

  /** `times_exec.fetch_add(1)`: the atomic add wraps around at 2^64. */
  function Bump(x: u64): u64
  {
    (x + 1) % U64_MODULUS
  }

  /** The counter after `n` successful calls, starting from `AtomicU64::new(0)`. */
  function Counter(n: nat): u64
  {
    if n == 0 then 0 else Bump(Counter(n - 1))
  }

  /** The counter is the number of successful calls modulo 2^64. */
  lemma {:induction false} CounterIsSuccessesMod(n: nat)
    ensures Counter(n) == n % U64_MODULUS
  {
    if n > 0 {
      CounterIsSuccessesMod(n - 1);
      var q := (n - 1) / U64_MODULUS;
      var m := (n - 1) % U64_MODULUS;
      assert n == q * U64_MODULUS + m + 1;
      if m + 1 == U64_MODULUS {
        assert n == (q + 1) * U64_MODULUS;
      } else {
        assert n % U64_MODULUS == m + 1;
      }
    }
  }

  /** Below 2^64 calls the counter counts exactly. */
  lemma CounterExact(n: nat)
    requires n < U64_MODULUS
    ensures Counter(n) == n
  {
    CounterIsSuccessesMod(n);
  }

  /** The hook's error, `tera::Error::msg(why.to_string())`. */
  type Message = string

  /** `RhaiFilter`: calls the script's `filter(value, args, times)`. */
  class RhaiFilter {
    const script: (Json, map<string, Json>, u64) -> Result<Json, Message>
    var timesExec: u64
    ghost var successes: nat

    ghost predicate Valid()
      reads this
    {
      timesExec == Counter(successes)
    }

    constructor (script: (Json, map<string, Json>, u64) -> Result<Json, Message>)
      ensures Valid() && successes == 0 && this.script == script
    {
      this.script := script;
      timesExec := 0;
      successes := 0;
    }

    method Filter(value: Json, args: map<string, Json>) returns (r: Result<Json, Message>)
      requires Valid()
      modifies this
      ensures Valid()
      ensures r == script(value, args, old(timesExec))
      ensures successes == old(successes) + (if r.Ok? then 1 else 0)
    {
      var exectimes := timesExec;
      var result := script(value, args, exectimes);
      if result.Err? {
        return Err(result.error);
      }
      timesExec := Bump(timesExec);
      successes := successes + 1;
      r := Ok(result.value);
    }
  }

  /** `RhaiTester`: calls the script's `test(value, args, times)`. */
  class RhaiTester {
    const script: (Option<Json>, seq<Json>, u64) -> Result<bool, Message>
    var timesExec: u64
    ghost var successes: nat

    ghost predicate Valid()
      reads this
    {
      timesExec == Counter(successes)
    }

    constructor (script: (Option<Json>, seq<Json>, u64) -> Result<bool, Message>)
      ensures Valid() && successes == 0 && this.script == script
    {
      this.script := script;
      timesExec := 0;
      successes := 0;
    }

    method Test(value: Option<Json>, args: seq<Json>) returns (r: Result<bool, Message>)
      requires Valid()
      modifies this
      ensures Valid()
      ensures r == script(value, args, old(timesExec))
      ensures successes == old(successes) + (if r.Ok? then 1 else 0)
    {
      var exectimes := timesExec;
      var result := script(value, args, exectimes);
      if result.Err? {
        return Err(result.error);
      }
      timesExec := Bump(timesExec);
      successes := successes + 1;
      r := Ok(result.value);
    }
  }

  /** `RhaiFunction`: calls the script's `main(args, times)`. */
  class RhaiFunction {
    const script: (map<string, Json>, u64) -> Result<Json, Message>
    var timesExec: u64
    ghost var successes: nat

    ghost predicate Valid()
      reads this
    {
      timesExec == Counter(successes)
    }

    constructor (script: (map<string, Json>, u64) -> Result<Json, Message>)
      ensures Valid() && successes == 0 && this.script == script
    {
      this.script := script;
      timesExec := 0;
      successes := 0;
    }

    method Call(args: map<string, Json>) returns (r: Result<Json, Message>)
      requires Valid()
      modifies this
      ensures Valid()
      ensures r == script(args, old(timesExec))
      ensures successes == old(successes) + (if r.Ok? then 1 else 0)
    {
      var exectimes := timesExec;
      var result := script(args, exectimes);
      if result.Err? {
        return Err(result.error);
      }
      timesExec := Bump(timesExec);
      successes := successes + 1;
      r := Ok(result.value);
    }
  }

  /** The render context of a shortcode: every argument, then `times` inserted over it. */
  function ShortcodeContext(args: map<string, Json>, times: u64): (ctx: map<string, Json>)
    ensures ctx.Keys == args.Keys + {"times"}
    ensures ctx["times"] == Number(times)
    ensures forall k :: k in args && k != "times" ==> ctx[k] == args[k]
  {
    args["times" := Number(times)]
  }

  /** `Shortcode`: renders the template registered under the name `shortcode` with the
      call's context and returns the output as a string value. `render` stands for that
      rendering; build.rs:128 as written passes the name to `render_str`, which renders its
      argument as template text (see `RenderStrAsWritten`). */
  class Shortcode {
    const render: map<string, Json> -> Result<string, Message>
    var timesExec: u64
    ghost var successes: nat

    ghost predicate Valid()
      reads this
    {
      timesExec == Counter(successes)
    }

    constructor (render: map<string, Json> -> Result<string, Message>)
      ensures Valid() && successes == 0 && this.render == render
    {
      this.render := render;
      timesExec := 0;
      successes := 0;
    }

    method Call(args: map<string, Json>) returns (r: Result<Json, Message>)
      requires Valid()
      modifies this
      ensures Valid()
      ensures var out := render(ShortcodeContext(args, old(timesExec)));
        r == (if out.Ok? then Ok(String(out.value)) else Err(out.error))
      ensures successes == old(successes) + (if r.Ok? then 1 else 0)
    {
      var ctx := map[];
      var names := args.Keys;
      while names != {}
        invariant names <= args.Keys
        invariant ctx.Keys == args.Keys - names
        invariant forall k :: k in ctx ==> ctx[k] == args[k]
        decreases names
      {
        var name :| name in names;
        ctx := ctx[name := args[name]];
        names := names - {name};
      }
      assert ctx == args;
      ctx := ctx["times" := Number(timesExec)];
      var rendered := render(ctx);
      if rendered.Err? {
        return Err(rendered.error);
      }
      timesExec := Bump(timesExec);
      successes := successes + 1;
      r := Ok(String(rendered.value));
    }
  }

  /** `render_str("shortcode", ctx)` as written: the text `shortcode` has no template tags,
      so it renders to itself whatever the context. */
  function RenderStrLiteral(ctx: map<string, Json>): Result<string, Message>
  {
    Ok("shortcode")
  }

  /** With the literal rendering of build.rs:128, every call returns the word `shortcode`,
      whatever its arguments, and is counted. */
  method RenderStrAsWritten(args: map<string, Json>) returns (r: Result<Json, Message>)
    ensures r == Ok(String("shortcode"))
  {
    var sc := new Shortcode(RenderStrLiteral);
    r := sc.Call(args);
  }
}
