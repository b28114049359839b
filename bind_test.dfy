/** The concrete scenarios for bind and `>>`: an int mapped to its decimal
    string, and an object whose const accessor returns a present id. */
module AbsentBindTest {
  import opened Nullable
  import opened AbsentBind

  /** Decimal rendering of an integer, as `std::to_string` gives it. */
  function ToString(x: int): string
    decreases if x < 0 then 1 - x else x
  {
    if x < 0 then "-" + ToString(-x)
    else if x < 10 then [DigitChar(x)]
    else ToString(x / 10) + [DigitChar(x % 10)]
  }

  function DigitChar(d: int): char
    requires 0 <= d < 10
  {
    "0123456789"[d]
  }

  /** The mapper `int -> optional<string>` of the scenario. */
  function ToStringOpt(x: int): Option<string> {
    Some(ToString(x))
  }

  /** A type whose const accessor `id()` always returns a present "200". */
  datatype Person = Person {
    function Id(): Option<string> {
      Some("200")
    }
  }

  const PersonId: Member<Person, Option<string>> := Member((p: Person) => p.Id())

  /** `none >> to_string` is empty; `some{200} >> to_string` is "200". */
  lemma BindToStringScenario()
    ensures InfixBind(None, ToStringOpt) == None
    ensures InfixBind(Some(200), ToStringOpt) == Some("200")
  {
    assert ToString(2) == "2";
    assert ToString(20) == "2" + "0";
    assert ToString(200) == "20" + "0" == "200";
    assert ToStringOpt(200) == Some("200");
  }

  /** `none >> &Person::id` is empty; `some{Person{}} >> &Person::id` is "200". */
  lemma BindMemberScenario()
    ensures InfixBindMember(None, PersonId) == None
    ensures InfixBindMember(Some(Person), PersonId) == Some("200")
  {}
}
