/**
 * The verification badge: a fixed table from status names to a label, a
 * colour scheme and an icon, looked up with a fallback to the `Unverified`
 * entry for any other status.
 */
module VerifiedBadge {
  import opened Text

  datatype Shape = CheckSolid | Exclamation | Cross

  /** An icon element: which icon component, and its `className`. */
  datatype Icon = Icon(shape: Shape, classes: string)

  datatype Config = Config(text: string, classes: string, icon: Icon)

  const GreenClasses: string := "bg-green-100 text-green-800 border-green-200"
  const YellowClasses: string := "bg-yellow-100 text-yellow-800 border-yellow-200"
  const RedClasses: string := "bg-red-100 text-red-800 border-red-200"
  const GrayClasses: string := "bg-gray-100 text-gray-800 border-gray-200"

  const GreenIcon: string := "w-4 h-4 text-green-600"
  const YellowIcon: string := "w-4 h-4 text-yellow-600"
  const RedIcon: string := "w-4 h-4 text-red-600"
  const GrayIcon: string := "w-4 h-4 text-gray-600"

  /** The six statuses the table knows. */
  const KnownStatuses: set<string> := {"Verified", "Needs Review", "Suspicious", "Unverified", "Contradictory", "Uncertain"}

  /** `statusConfig[status]`: the table entry, if the status has one. */
  function Entry(status: string): (e: Option<Config>)
    ensures e.Some? <==> status in KnownStatuses
    ensures e.Some? ==> e.value.text == status
  {
    if status == "Verified" then Some(Config("Verified", GreenClasses, Icon(CheckSolid, GreenIcon)))
    else if status == "Needs Review" then Some(Config("Needs Review", YellowClasses, Icon(Exclamation, YellowIcon)))
    else if status == "Suspicious" then Some(Config("Suspicious", RedClasses, Icon(Cross, RedIcon)))
    else if status == "Unverified" then Some(Config("Unverified", GrayClasses, Icon(Exclamation, GrayIcon)))
    else if status == "Contradictory" then Some(Config("Contradictory", RedClasses, Icon(Cross, RedIcon)))
    else if status == "Uncertain" then Some(Config("Uncertain", YellowClasses, Icon(Exclamation, YellowIcon)))
    else None
  }

  /** `statusConfig[status] || statusConfig.Unverified`: every entry is truthy, so only a missing one falls back. */
  function Badge(status: string): (c: Config)
    ensures c.text == (if status in KnownStatuses then status else "Unverified")
  {
    var e := Entry(status);
    if e.Some? then e.value else Entry("Unverified").value
  }

  /** The lookup is total, and an unknown status looks exactly like `Unverified`. */
  lemma UnknownFallsBack(status: string)
    requires status !in KnownStatuses
    ensures Badge(status) == Badge("Unverified")
  {
  }

  /**
   * `Suspicious` and `Contradictory` share the red scheme and icon; `Needs
   * Review` and `Uncertain` the yellow ones. `Unverified` has the same
   * exclamation icon as those two, but drawn gray.
   */
  lemma SharedSchemes()
    ensures Badge("Suspicious").classes == Badge("Contradictory").classes == RedClasses
    ensures Badge("Suspicious").icon == Badge("Contradictory").icon == Icon(Cross, RedIcon)
    ensures Badge("Needs Review").classes == Badge("Uncertain").classes == YellowClasses
    ensures Badge("Needs Review").icon == Badge("Uncertain").icon == Icon(Exclamation, YellowIcon)
    ensures Badge("Unverified").icon == Icon(Exclamation, GrayIcon)
  {
  }

  /** `Verified` is the only status shown green. */
  lemma OnlyVerifiedIsGreen(status: string)
    ensures Badge(status).classes == GreenClasses <==> status == "Verified"
  {
  }
}
