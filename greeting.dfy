/** The hour classification of getTimeOfDayGreeting, with the hour of the clock passed in. */
module Greeting {

  /** The greeting for an hour of the day. */
  function TimeOfDayGreeting(hour: int): (g: string)
    ensures g == "MORNING" <==> 5 <= hour < 12
    ensures g == "AFTERNOON" <==> 12 <= hour < 17
    ensures g == "EVENING" <==> 17 <= hour < 21
    ensures g == "NIGHT" <==> hour < 5 || hour >= 21
  {
    if hour >= 5 && hour < 12 then "MORNING"
    else if hour >= 12 && hour < 17 then "AFTERNOON"
    else if hour >= 17 && hour < 21 then "EVENING"
    else "NIGHT"
  }

  /** Every hour gets exactly one of the four greetings. */
  lemma GreetingsCoverAndDoNotOverlap(hour: int)
    ensures TimeOfDayGreeting(hour) in {"MORNING", "AFTERNOON", "EVENING", "NIGHT"}
  {
  }

  /** Over one day, the greeting changes from one hour to the next exactly at 5, 12, 17 and 21. */
  lemma GreetingChangesAt(hour: int)
    requires 0 <= hour < 23
    ensures TimeOfDayGreeting(hour) != TimeOfDayGreeting(hour + 1) <==> hour + 1 in {5, 12, 17, 21}
  {
  }
}
