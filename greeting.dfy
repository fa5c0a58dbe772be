/** GreetingService: a stateless greeting. */
module Greeting {
  import opened Text

  const DefaultGreeting: string := "Hello from GreetingService!"
  const Prefix: string := "Hello, "

  /** Reads a personalised greeting back: the name between "Hello, " and the
      final "!", or None for any other text. */
  function GreetedName(greeting: string): Option<string> {
    if |greeting| >= |Prefix| + 1 && greeting[..|Prefix|] == Prefix && greeting[|greeting| - 1] == '!'
    then Some(greeting[|Prefix|..|greeting| - 1])
    else None
  }

  /** GetGreeting(name): the default greeting for a null, empty or blank name,
      otherwise "Hello, " + name + "!" with the name kept verbatim. */
  function GetGreeting(name: Option<string>): (r: string)
    ensures IsNullOrWhiteSpace(name) ==> r == DefaultGreeting
    ensures GreetedName(r) == if IsNullOrWhiteSpace(name) then None else name
  {
    if IsNullOrWhiteSpace(name) then
      assert DefaultGreeting[..|Prefix|][5] != Prefix[5];
      DefaultGreeting
    else Prefix + name.value + "!"
  }

  /** Different non-blank names get different greetings, and none of them is
      the default greeting. */
  lemma {:induction false} GreetingDistinguishesNames(a: Option<string>, b: Option<string>)
    requires !IsNullOrWhiteSpace(a) && !IsNullOrWhiteSpace(b)
    ensures GetGreeting(a) != DefaultGreeting
    ensures GetGreeting(a) == GetGreeting(b) ==> a == b
  {
    assert GreetedName(GetGreeting(a)) == a;
    assert GreetedName(GetGreeting(b)) == b;
    assert GreetedName(GetGreeting(None)) == None;
  }
}
