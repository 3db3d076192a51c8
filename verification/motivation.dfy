/** The dashboard's classifiers (utils/helpter.ts): the motivational roast picked
    from days since the last activity and the completion percentage, and the
    status colour picked from the days alone. Both are first-match-wins tables. */
module Motivation {

  /** The five roasts, from the gentlest to the harshest. */
  datatype Roast = Roll | Coffee | Excuse | Milk | Dust

  const DustMessage: string := "This project is collecting more dust than your gym membership card."
  const MilkMessage: string := "Your project is aging like milk, not wine. Time to revive it!"
  const ExcuseMessage: string := "Another day, another excuse not to finish this project."
  const CoffeeMessage: string := "Coffee's getting cold. Time to wake up and code!"
  const RollMessage: string := "You're on a roll! Don't stop now!"

  /** The text shown for a roast. */
  function Message(r: Roast): (text: string)
    ensures text in {DustMessage, MilkMessage, ExcuseMessage, CoffeeMessage, RollMessage}
  {
    match r
    case Dust => DustMessage
    case Milk => MilkMessage
    case Excuse => ExcuseMessage
    case Coffee => CoffeeMessage
    case Roll => RollMessage
  }

  /** Distinct roasts show distinct texts, so the text identifies the roast. */
  lemma MessageInjective(r1: Roast, r2: Roast)
    ensures Message(r1) == Message(r2) ==> r1 == r2
  {
  }

  /** How harsh a roast is. */
  function Severity(r: Roast): nat {
    match r
    case Roll => 0
    case Coffee => 1
    case Excuse => 2
    case Milk => 3
    case Dust => 4
  }

  /** `getMotivationalRoast(days, progress)`. Each roast is characterised by its
      own region of the (days, progress) plane; the regions cover every input. */
  function MotivationalRoast(days: int, progress: int): (r: Roast)
    ensures r == Roll <==> days <= 14
    ensures r == Coffee <==> days > 14 && (days <= 30 || progress >= 70)
    ensures r == Excuse <==> days > 30 && progress < 70 && !(days > 60 && progress < 50)
    ensures r == Milk <==> days > 60 && progress < 50 && !(days > 90 && progress < 30)
    ensures r == Dust <==> days > 90 && progress < 30
  {
    if days > 90 && progress < 30 then Dust
    else if days > 60 && progress < 50 then Milk
    else if days > 30 && progress < 70 then Excuse
    else if days > 14 then Coffee
    else Roll
  }

  /** More days and less progress never give a gentler roast. */
  lemma RoastMonotone(days1: int, progress1: int, days2: int, progress2: int)
    requires days1 <= days2 && progress2 <= progress1
    ensures Severity(MotivationalRoast(days1, progress1)) <= Severity(MotivationalRoast(days2, progress2))
  {
  }

  /** `getStatusColor`'s badge variants, from calm to alarming. */
  datatype StatusColor = Success | Info | Warning | Destructive

  function ColorSeverity(c: StatusColor): nat {
    match c
    case Success => 0
    case Info => 1
    case Warning => 2
    case Destructive => 3
  }

  /** `getStatusColor(lastActivity, progress)`: the progress argument plays no part. */
  function GetStatusColor(lastActivity: int, progress: int): (c: StatusColor)
    ensures c == Destructive <==> lastActivity > 60
    ensures c == Warning <==> 30 < lastActivity <= 60
    ensures c == Info <==> 14 < lastActivity <= 30
    ensures c == Success <==> lastActivity <= 14
  {
    // `lastActivity && lastActivity > n`: a zero count is falsy, and also not above n.
    if lastActivity != 0 && lastActivity > 60 then Destructive
    else if lastActivity != 0 && lastActivity > 30 then Warning
    else if lastActivity != 0 && lastActivity > 14 then Info
    else Success
  }

  /** More days never give a calmer colour, and progress does not matter. */
  lemma StatusColorMonotone(days1: int, days2: int, progress1: int, progress2: int)
    requires days1 <= days2
    ensures ColorSeverity(GetStatusColor(days1, progress1)) <= ColorSeverity(GetStatusColor(days2, progress2))
  {
  }

  /** The roast and the colour agree on when a project counts as active: the
      roast is "on a roll" exactly when the badge is green. */
  lemma RollIffSuccess(days: int, progress: int)
    ensures MotivationalRoast(days, progress) == Roll <==> GetStatusColor(days, progress) == Success
  {
  }
}
