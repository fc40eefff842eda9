/** The three ticket enums of the enums package, and the user status they sit beside. */
module Enums {
  import opened Text
  import Wrappers

  /** TicketStatus, in declaration order. */
  datatype TicketStatus = Open | InProgress | Resolved | Closed | Reopened

  /** TicketPriority, in declaration order. */
  datatype TicketPriority = Low | Medium | High | Urgent

  /** TicketCategory, in declaration order. */
  datatype TicketCategory = Hardware | Software | Network | Access | Email | Printer | Phone | Other

  /**
   * UserStatus. Its source file is not part of this model: only ACTIVE is named by the code,
   * every other constant is kept by its name.
   */
  datatype UserStatus = Active | OtherStatus(name: string)

  /** `TicketStatus.values()`. */
  const AllStatuses: seq<TicketStatus> := [Open, InProgress, Resolved, Closed, Reopened]
  /** `TicketPriority.values()`. */
  const AllPriorities: seq<TicketPriority> := [Low, Medium, High, Urgent]
  /** `TicketCategory.values()`. */
  const AllCategories: seq<TicketCategory> :=
    [Hardware, Software, Network, Access, Email, Printer, Phone, Other]

  /** `name()` of a status constant. */
  function StatusName(s: TicketStatus): string {
    match s
    case Open => "OPEN"
    case InProgress => "IN_PROGRESS"
    case Resolved => "RESOLVED"
    case Closed => "CLOSED"
    case Reopened => "REOPENED"
  }

  /** `getDisplayName()` of a status. */
  function StatusDisplayName(s: TicketStatus): string {
    match s
    case Open => "Open"
    case InProgress => "In Progress"
    case Resolved => "Resolved"
    case Closed => "Closed"
    case Reopened => "Reopened"
  }

  /** `getBadgeClass()` of a status. */
  function StatusBadgeClass(s: TicketStatus): string {
    match s
    case Open => "info"
    case InProgress => "warning"
    case Resolved => "success"
    case Closed => "secondary"
    case Reopened => "danger"
  }

  /** `name()` of a priority constant. */
  function PriorityName(p: TicketPriority): string {
    match p
    case Low => "LOW"
    case Medium => "MEDIUM"
    case High => "HIGH"
    case Urgent => "URGENT"
  }

  /** `getDisplayName()` of a priority. */
  function PriorityDisplayName(p: TicketPriority): string {
    match p
    case Low => "Low"
    case Medium => "Medium"
    case High => "High"
    case Urgent => "Urgent"
  }

  /** `getBadgeClass()` of a priority. */
  function PriorityBadgeClass(p: TicketPriority): string {
    match p
    case Low => "success"
    case Medium => "warning"
    case High => "danger"
    case Urgent => "danger"
  }

  /** `name()` of a category constant. */
  function CategoryName(c: TicketCategory): string {
    match c
    case Hardware => "HARDWARE"
    case Software => "SOFTWARE"
    case Network => "NETWORK"
    case Access => "ACCESS"
    case Email => "EMAIL"
    case Printer => "PRINTER"
    case Phone => "PHONE"
    case Other => "OTHER"
  }

  /** `getDisplayName()` of a category. */
  function CategoryDisplayName(c: TicketCategory): string {
    match c
    case Hardware => "Hardware"
    case Software => "Software"
    case Network => "Network"
    case Access => "Access & Permissions"
    case Email => "Email"
    case Printer => "Printer"
    case Phone => "Phone"
    case Other => "Other"
  }

  /**
   * `TicketStatus.valueOf(name)`, which Spring applies to bind a request parameter;
   * an unknown name is a conversion failure.
   */
  function ParseStatus(name: string): (r: Wrappers.Option<TicketStatus>)
    ensures r.Some? ==> StatusName(r.value) == name
    ensures r.None? ==> forall s :: StatusName(s) != name
  {
    if name == "OPEN" then Wrappers.Some(Open)
    else if name == "IN_PROGRESS" then Wrappers.Some(InProgress)
    else if name == "RESOLVED" then Wrappers.Some(Resolved)
    else if name == "CLOSED" then Wrappers.Some(Closed)
    else if name == "REOPENED" then Wrappers.Some(Reopened)
    else Wrappers.None
  }

  /** `TicketPriority.valueOf(name)`. */
  function ParsePriority(name: string): (r: Wrappers.Option<TicketPriority>)
    ensures r.Some? ==> PriorityName(r.value) == name
    ensures r.None? ==> forall p :: PriorityName(p) != name
  {
    if name == "LOW" then Wrappers.Some(Low)
    else if name == "MEDIUM" then Wrappers.Some(Medium)
    else if name == "HIGH" then Wrappers.Some(High)
    else if name == "URGENT" then Wrappers.Some(Urgent)
    else Wrappers.None
  }

  /** There are exactly five statuses, listed once each in declaration order. */
  lemma StatusesEnumerated()
    ensures |AllStatuses| == 5
    ensures forall s :: s in AllStatuses
    ensures forall i, j :: 0 <= i < j < |AllStatuses| ==> AllStatuses[i] != AllStatuses[j]
  {
    forall s ensures s in AllStatuses {
      match s
      case Open => assert AllStatuses[0] == s;
      case InProgress => assert AllStatuses[1] == s;
      case Resolved => assert AllStatuses[2] == s;
      case Closed => assert AllStatuses[3] == s;
      case Reopened => assert AllStatuses[4] == s;
    }
  }

  /** There are exactly four priorities, listed once each in declaration order. */
  lemma PrioritiesEnumerated()
    ensures |AllPriorities| == 4
    ensures forall p :: p in AllPriorities
    ensures forall i, j :: 0 <= i < j < |AllPriorities| ==> AllPriorities[i] != AllPriorities[j]
  {
    forall p ensures p in AllPriorities {
      match p
      case Low => assert AllPriorities[0] == p;
      case Medium => assert AllPriorities[1] == p;
      case High => assert AllPriorities[2] == p;
      case Urgent => assert AllPriorities[3] == p;
    }
  }

  /** There are exactly eight categories, HARDWARE first and OTHER last. */
  lemma CategoriesEnumerated()
    ensures |AllCategories| == 8 && AllCategories[0] == Hardware && AllCategories[7] == Other
    ensures forall c :: c in AllCategories
    ensures forall i, j :: 0 <= i < j < |AllCategories| ==> AllCategories[i] != AllCategories[j]
  {
    forall c ensures c in AllCategories {
      match c
      case Hardware => assert AllCategories[0] == c;
      case Software => assert AllCategories[1] == c;
      case Network => assert AllCategories[2] == c;
      case Access => assert AllCategories[3] == c;
      case Email => assert AllCategories[4] == c;
      case Printer => assert AllCategories[5] == c;
      case Phone => assert AllCategories[6] == c;
      case Other => assert AllCategories[7] == c;
    }
  }

  /** Parsing a constant's own name gives that constant back. */
  lemma ParseStatusRoundTrip(s: TicketStatus)
    ensures ParseStatus(StatusName(s)) == Wrappers.Some(s)
  {
  }

  /** Parsing a constant's own name gives that constant back. */
  lemma ParsePriorityRoundTrip(p: TicketPriority)
    ensures ParsePriority(PriorityName(p)) == Wrappers.Some(p)
  {
  }

  /** Every status displays as its humanised constant name ("IN_PROGRESS" -> "In Progress"). */
  lemma StatusDisplayFollowsName(s: TicketStatus)
    ensures StatusDisplayName(s) == Humanize(StatusName(s))
  {
  }

  /** Every priority displays as its humanised constant name. */
  lemma PriorityDisplayFollowsName(p: TicketPriority)
    ensures PriorityDisplayName(p) == Humanize(PriorityName(p))
  {
  }

  /** Every category but ACCESS displays as its humanised constant name. */
  lemma CategoryDisplayFollowsName(c: TicketCategory)
    ensures CategoryDisplayName(c) == Humanize(CategoryName(c)) <==> c != Access
    ensures CategoryDisplayName(Access) == "Access & Permissions"
  {
  }

  /** Distinct statuses have distinct display names and distinct badge classes. */
  lemma StatusTablesInjective(a: TicketStatus, b: TicketStatus)
    requires a != b
    ensures StatusDisplayName(a) != StatusDisplayName(b)
    ensures StatusBadgeClass(a) != StatusBadgeClass(b)
  {
  }

  /** Distinct priorities have distinct display names. */
  lemma PriorityDisplayInjective(a: TicketPriority, b: TicketPriority)
    requires a != b
    ensures PriorityDisplayName(a) != PriorityDisplayName(b)
  {
  }

  /**
   * The priority badge table: LOW is "success", MEDIUM "warning", and HIGH and URGENT share
   * "danger", so the badge class does not determine the priority.
   */
  lemma PriorityBadges()
    ensures PriorityBadgeClass(Low) == "success" && PriorityBadgeClass(Medium) == "warning"
    ensures PriorityBadgeClass(High) == PriorityBadgeClass(Urgent) == "danger"
    ensures exists a, b :: a != b && PriorityBadgeClass(a) == PriorityBadgeClass(b)
  {
    assert High != Urgent && PriorityBadgeClass(High) == PriorityBadgeClass(Urgent);
  }

  /** Distinct categories have distinct display names. */
  lemma CategoryDisplayInjective(a: TicketCategory, b: TicketCategory)
    requires a != b
    ensures CategoryDisplayName(a) != CategoryDisplayName(b)
  {
  }
}
