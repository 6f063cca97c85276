/** The class-name helpers shared by the task views: a colour per priority and a background
    per status, both chosen on the lower-cased value. */
module Util {
  import opened Basics

  /** The colour family a helper picks. */
  datatype Shade = Red | Yellow | Green | Gray

  /** The `switch (priority.toLowerCase())` both priority helpers share. */
  function PriorityShade(priority: string): (s: Shade)
    ensures s == Red <==> Lower(priority) == "high"
    ensures s == Yellow <==> Lower(priority) == "medium"
    ensures s == Green <==> Lower(priority) == "low"
  {
    match Lower(priority)
    case "high" => Red
    case "medium" => Yellow
    case "low" => Green
    case _ => Gray
  }

  /** getPriorityColor: the badge classes for a priority. */
  function PriorityColor(priority: string): (c: string)
    ensures c == "bg-red-100 text-red-800" <==> Lower(priority) == "high"
    ensures c == "bg-yellow-100 text-yellow-800" <==> Lower(priority) == "medium"
    ensures c == "bg-green-100 text-green-800" <==> Lower(priority) == "low"
    ensures c == "bg-gray-100 text-gray-800" <==> PriorityShade(priority) == Gray
  {
    match PriorityShade(priority)
    case Red => "bg-red-100 text-red-800"
    case Yellow => "bg-yellow-100 text-yellow-800"
    case Green => "bg-green-100 text-green-800"
    case Gray => "bg-gray-100 text-gray-800"
  }

  /** getCardBorder: the left-border class for a priority. */
  function CardBorder(priority: string): (c: string)
    ensures c == "border-red-300" <==> Lower(priority) == "high"
    ensures c == "border-yellow-300" <==> Lower(priority) == "medium"
    ensures c == "border-green-300" <==> Lower(priority) == "low"
    ensures c == "border-gray-300" <==> PriorityShade(priority) == Gray
  {
    match PriorityShade(priority)
    case Red => "border-red-300"
    case Yellow => "border-yellow-300"
    case Green => "border-green-300"
    case Gray => "border-gray-300"
  }

  /** The two priority helpers fall back to gray for exactly the same inputs, namely those that
      lower-case to none of the three priorities. */
  lemma GrayFallbacksAgree(priority: string)
    ensures PriorityColor(priority) == "bg-gray-100 text-gray-800"
      <==> CardBorder(priority) == "border-gray-300"
    ensures PriorityColor(priority) == "bg-gray-100 text-gray-800"
      <==> Lower(priority) !in {"high", "medium", "low"}
  {
  }

  /** Inputs that differ only in letter case get the same classes. */
  lemma PriorityIgnoresCase(a: string, b: string)
    requires Lower(a) == Lower(b)
    ensures PriorityColor(a) == PriorityColor(b) && CardBorder(a) == CardBorder(b)
  {
  }

  const GreenBackground: string := "bg-[#f1fff1]"
  const GrayBackground: string := "bg-[#f7f7f7]"

  /** completedBackground as util.ts writes it: its first case compares the lower-cased status
      with "notDone", which holds an upper-case letter. */
  function CompletedBackground(status: string): (c: string)
    ensures c == GreenBackground <==> Lower(status) == "done"
    ensures c != GreenBackground ==> c == GrayBackground
  {
    var s := Lower(status);
    if s == "notDone" then GrayBackground
    else if s == "done" then GreenBackground
    else GrayBackground
  }

  /** The "notDone" case of completedBackground can never be taken. */
  lemma NotDoneCaseUnreachable(status: string)
    ensures Lower(status) != "notDone"
  {
    LowerNeverEquals(status, "notDone", 3);
  }

  /** The background ignores letter case: "DONE" and "Done" are green like "done". */
  lemma BackgroundIgnoresCase(a: string, b: string)
    requires Lower(a) == Lower(b)
    ensures CompletedBackground(a) == CompletedBackground(b)
  {
  }
}
