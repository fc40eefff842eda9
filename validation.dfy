/**
 * Bean Validation of the two ticket forms: the `@NotBlank`, `@Size` and `@NotNull`
 * constraints of TicketCreateDto and TicketUpdateDto, and the `@ValidTicketStatus` check
 * of ValidTicketStatusValidator. Validating a form yields the set of its violations.
 */
module Validation {
  import opened Wrappers
  import opened Text
  import opened Enums
  import opened Dtos

  datatype Constraint = NotBlank | Size | NotNull | ValidTicketStatus

  /** One constraint violation: the property it is reported on and the constraint that failed. */
  datatype Violation = Violation(field: string, constraint: Constraint)

  /** `ValidTicketStatusValidator.isValid`: the context is never consulted. */
  function IsValidStatus<C>(status: Option<TicketStatus>, context: C): (r: bool)
    ensures r <==> status.Some?
  {
    if status.None? then false else true
  }

  /** `@NotBlank`: the value is set and Hibernate's trim leaves something. */
  predicate NotBlankHolds(s: Option<string>) {
    s.Some? && !IsBlank(s.value)
  }

  /** `@Size(min, max)` on a string, measured by `length()`; a null value satisfies it. */
  predicate SizeHolds(s: Option<string>, min: nat, max: Option<nat>) {
    s.None? || (min <= Utf16Length(s.value) && (max.None? || Utf16Length(s.value) <= max.value))
  }

  function Check(ok: bool, field: string, c: Constraint): set<Violation> {
    if ok then {} else {Violation(field, c)}
  }

  /** The constraints on `title`, shared by both forms: not blank, 5 to 200 characters. */
  function TitleViolations(title: Option<string>): set<Violation> {
    Check(NotBlankHolds(title), "title", NotBlank) + Check(SizeHolds(title, 5, Some(200)), "title", Size)
  }

  /** The constraints on `description`, shared by both forms: not blank, at least 10 characters. */
  function DescriptionViolations(description: Option<string>): set<Violation> {
    Check(NotBlankHolds(description), "description", NotBlank)
    + Check(SizeHolds(description, 10, None), "description", Size)
  }

  /** Validation of the creation form. */
  function CreateViolations(dto: TicketCreateDto): (r: set<Violation>)
    ensures forall v :: v in r ==> v.field in {"title", "description", "priority", "category"}
  {
    TitleViolations(dto.title) + DescriptionViolations(dto.description)
    + Check(dto.priority.Some?, "priority", NotNull) + Check(dto.category.Some?, "category", NotNull)
  }

  /** Validation of the edit form: the creation constraints plus the two on `status`. */
  function UpdateViolations(dto: TicketUpdateDto): (r: set<Violation>)
    ensures forall v :: v in r ==> v.field in {"title", "description", "status", "priority", "category"}
  {
    TitleViolations(dto.title) + DescriptionViolations(dto.description)
    + Check(dto.status.Some?, "status", NotNull)
    + Check(IsValidStatus(dto.status, ()), "status", ValidTicketStatus)
    + Check(dto.priority.Some?, "priority", NotNull) + Check(dto.category.Some?, "category", NotNull)
  }

  /** The message a violation reports; `@ValidTicketStatus` declares its own, which is not part of this model. */
  function Message(v: Violation): (m: Option<string>)
    ensures m.None? <==> v.constraint == ValidTicketStatus || v !in AllViolationKinds()
  {
    match v
    case Violation("title", NotBlank) => Some("Title is required")
    case Violation("title", Size) => Some("Title must be between 5 and 200 characters")
    case Violation("description", NotBlank) => Some("Description is required")
    case Violation("description", Size) => Some("Description must be at least 10 characters")
    case Violation("status", NotNull) => Some("Status is required")
    case Violation("priority", NotNull) => Some("Priority is required")
    case Violation("category", NotNull) => Some("Category is required")
    case _ => None
  }

  /** Every violation that validating either form can report, except the `@ValidTicketStatus` one. */
  function AllViolationKinds(): set<Violation> {
    {Violation("title", NotBlank), Violation("title", Size), Violation("description", NotBlank),
     Violation("description", Size), Violation("status", NotNull), Violation("priority", NotNull),
     Violation("category", NotNull)}
  }

  /** A title that passes both of its constraints; its length is counted in UTF-16 units. */
  predicate GoodTitle(t: Option<string>) {
    t.Some? && !IsBlank(t.value) && 5 <= Utf16Length(t.value) <= 200
  }

  /** A description that passes both of its constraints; it has no upper bound. */
  predicate GoodDescription(d: Option<string>) {
    d.Some? && !IsBlank(d.value) && 10 <= Utf16Length(d.value)
  }

  /** The creation form is accepted exactly when every field constraint holds. */
  lemma CreateAcceptedIff(dto: TicketCreateDto)
    ensures CreateViolations(dto) == {} <==>
            GoodTitle(dto.title) && GoodDescription(dto.description)
            && dto.priority.Some? && dto.category.Some?
  {
    if CreateViolations(dto) == {} {
      assert Check(NotBlankHolds(dto.title), "title", NotBlank) <= CreateViolations(dto);
      assert Check(SizeHolds(dto.title, 5, Some(200)), "title", Size) <= CreateViolations(dto);
      assert Check(NotBlankHolds(dto.description), "description", NotBlank) <= CreateViolations(dto);
      assert Check(SizeHolds(dto.description, 10, None), "description", Size) <= CreateViolations(dto);
    }
  }

  /**
   * The edit form is accepted exactly when every field constraint holds; the status
   * may be any of the five, REOPENED included.
   */
  lemma UpdateAcceptedIff(dto: TicketUpdateDto)
    ensures UpdateViolations(dto) == {} <==>
            GoodTitle(dto.title) && GoodDescription(dto.description)
            && dto.status.Some? && dto.priority.Some? && dto.category.Some?
  {
    if UpdateViolations(dto) == {} {
      assert Check(NotBlankHolds(dto.title), "title", NotBlank) <= UpdateViolations(dto);
      assert Check(SizeHolds(dto.title, 5, Some(200)), "title", Size) <= UpdateViolations(dto);
      assert Check(NotBlankHolds(dto.description), "description", NotBlank) <= UpdateViolations(dto);
      assert Check(SizeHolds(dto.description, 10, None), "description", Size) <= UpdateViolations(dto);
    }
  }

  /** A missing status is reported twice: by `@NotNull` and by `@ValidTicketStatus`. */
  lemma MissingStatusReportedTwice(dto: TicketUpdateDto)
    requires dto.status.None?
    ensures Violation("status", NotNull) in UpdateViolations(dto)
    ensures Violation("status", ValidTicketStatus) in UpdateViolations(dto)
  {
  }

  /** The length check does not imply the blank check: five spaces are long enough, yet blank. */
  lemma BlankTitleOfFiveSpaces()
    ensures SizeHolds(Some("     "), 5, Some(200))
    ensures Violation("title", NotBlank) in TitleViolations(Some("     "))
  {
    assert IsBlank("     ");
    assert Utf16Length("     ") == 5;
  }

  /** A null title violates only `@NotBlank`: `@Size` treats null as valid. */
  lemma NullTitleViolatesNotBlankOnly()
    ensures TitleViolations(None) == {Violation("title", NotBlank)}
  {
  }
}
