/**
 Overload resolution among the member functions of a generated class, for a call whose arguments are
 variables.
 */
module Overloads {

  /** A parameter: T& or const T& for the type that `text` writes, or a reference to a message. */
  datatype Slot = ByReference(text: string, isConst: bool) | MessageOnly

  datatype Function = Function(name: string, isConst: bool, slots: seq<Slot>)

  /** Whether the language converts a variable of one type for a parameter of another. */
  type Conversions = (string, Slot) -> bool

  predicate Distinct<T(==)>(xs: seq<T>) {
    forall i, j | 0 <= i < j < |xs| :: xs[i] != xs[j]
  }

  /** How well a variable of the type fits: 0 best, 3 not at all.  Conversions are not compared with each other. */
  function Fit(slot: Slot, text: string, converts: Conversions): nat {
    if slot == ByReference(text, false) then 0
    else if slot == ByReference(text, true) then 1
    else if converts(text, slot) then 2
    else 3
  }

  predicate Viable(f: Function, args: seq<string>, converts: Conversions) {
    |f.slots| == |args| && forall i | 0 <= i < |args| :: Fit(f.slots[i], args[i], converts) < 3
  }

  /** Nowhere worse and somewhere better, the object on which the function is called included. */
  predicate Better(f: Function, g: Function, args: seq<string>, converts: Conversions)
    requires |f.slots| == |args| == |g.slots|
  {
    && (f.isConst ==> g.isConst)
    && (forall i | 0 <= i < |args| :: Fit(f.slots[i], args[i], converts) <= Fit(g.slots[i], args[i], converts))
    && ((g.isConst && !f.isConst)
        || exists i | 0 <= i < |args| :: Fit(f.slots[i], args[i], converts) < Fit(g.slots[i], args[i], converts))
  }

  /** The call compiles and goes to f. */
  predicate Selects(functions: seq<Function>, name: string, args: seq<string>, converts: Conversions, f: Function) {
    && f in functions && f.name == name && Viable(f, args, converts)
    && forall g | g in functions && g != f && g.name == name && Viable(g, args, converts) ::
         Better(f, g, args, converts)
  }

  predicate SelectsSome(functions: seq<Function>, name: string, args: seq<string>, converts: Conversions) {
    exists f | f in functions :: Selects(functions, name, args, converts, f)
  }

  /** The arguments have the very types of the parameters. */
  predicate Exact(f: Function, args: seq<string>) {
    |f.slots| == |args| && forall i | 0 <= i < |args| :: f.slots[i].ByReference? && f.slots[i].text == args[i]
  }

  /** f fits exactly, and nothing else that fits could change an argument of its type that f takes as constant. */
  predicate Called(functions: seq<Function>, name: string, args: seq<string>, converts: Conversions, f: Function) {
    && f in functions && f.name == name && Exact(f, args)
    && forall g | g in functions && g.name == name && Viable(g, args, converts) ::
         forall i | 0 <= i < |args| && f.slots[i].isConst :: g.slots[i] != ByReference(args[i], false)
  }

  /** Where some function fits exactly, this is all that the language's rule comes to. */
  lemma SelectsIff(functions: seq<Function>, name: string, args: seq<string>, converts: Conversions,
                   meant: Function, f: Function)
    requires meant in functions && meant.name == name && Exact(meant, args)
    requires forall g | g in functions && g.name == name :: !g.isConst
    ensures Selects(functions, name, args, converts, f) <==> Called(functions, name, args, converts, f)
  {
    ExactViable(meant, args, converts);
    if Selects(functions, name, args, converts, f) {
      if f != meant {
        assert Better(f, meant, args, converts);
        FitsExactly(f, meant, args, converts);
      }
      forall g | g in functions && g.name == name && Viable(g, args, converts)
        ensures forall i | 0 <= i < |args| && f.slots[i].isConst :: g.slots[i] != ByReference(args[i], false)
      {
        if g != f {
          assert Better(f, g, args, converts);
        }
      }
    }
    if Called(functions, name, args, converts, f) {
      ExactViable(f, args, converts);
      forall g | g in functions && g != f && g.name == name && Viable(g, args, converts)
        ensures Better(f, g, args, converts)
      {
        ExactBetter(f, g, args, converts);
      }
    }
  }

  lemma ExactViable(f: Function, args: seq<string>, converts: Conversions)
    requires Exact(f, args)
    ensures Viable(f, args, converts) && forall i | 0 <= i < |args| :: Fit(f.slots[i], args[i], converts) <= 1
  {
    forall i | 0 <= i < |args| ensures Fit(f.slots[i], args[i], converts) <= 1 {
      assert f.slots[i] == ByReference(args[i], f.slots[i].isConst);
    }
  }

  lemma FitsExactly(f: Function, meant: Function, args: seq<string>, converts: Conversions)
    requires Exact(meant, args) && Viable(f, args, converts) && Better(f, meant, args, converts)
    ensures Exact(f, args)
  {
    ExactViable(meant, args, converts);
    forall i | 0 <= i < |args| ensures f.slots[i].ByReference? && f.slots[i].text == args[i] {
      assert Fit(f.slots[i], args[i], converts) <= Fit(meant.slots[i], args[i], converts) <= 1;
    }
  }

  lemma ExactBetter(f: Function, g: Function, args: seq<string>, converts: Conversions)
    requires Exact(f, args) && Viable(g, args, converts) && f != g && f.name == g.name && !f.isConst && !g.isConst
    requires forall i | 0 <= i < |args| && f.slots[i].isConst :: g.slots[i] != ByReference(args[i], false)
    ensures Better(f, g, args, converts)
  {
    assert f.slots != g.slots;
    var i :| 0 <= i < |args| && f.slots[i] != g.slots[i];
    forall j | 0 <= j < |args|
      ensures Fit(f.slots[j], args[j], converts) <= Fit(g.slots[j], args[j], converts)
      ensures f.slots[j] != g.slots[j] ==>
                Fit(f.slots[j], args[j], converts) < Fit(g.slots[j], args[j], converts)
    {
      assert f.slots[j] == ByReference(args[j], f.slots[j].isConst);
    }
    assert Fit(f.slots[i], args[i], converts) < Fit(g.slots[i], args[i], converts);
  }

  /** Constant functions and those that take messages are no rivals of a function that fits exactly. */
  lemma SelectsExact(functions: seq<Function>, name: string, args: seq<string>, converts: Conversions, f: Function)
    requires f in functions && f.name == name && Exact(f, args) && !f.isConst
    requires forall g | g in functions && g.name == name && g != f ::
               (g.isConst && g.slots == []) || g.slots == [MessageOnly]
    ensures Selects(functions, name, args, converts, f)
  {
    ExactViable(f, args, converts);
    forall g | g in functions && g != f && g.name == name && Viable(g, args, converts)
      ensures Better(f, g, args, converts)
    {
      if g.slots == [MessageOnly] {
        assert Fit(f.slots[0], args[0], converts) <= 1 < Fit(g.slots[0], args[0], converts);
      }
    }
  }
}
