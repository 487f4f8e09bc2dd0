/** Email templates: who may list, create, view, edit, render and export
    them. Templates of the `employee_contract` type are reserved for
    privileged users. */
module EmailTemplates {
  import opened Common
  import Seqs

  const EmployeeContract: string := "employee_contract"

  /** A stored template; `dateCreated` orders templates in time. */
  datatype Template = Template(id: nat, name: string, templateType: string, dateCreated: int)

  /** Super admins and management leads. */
  predicate Privileged(u: User) {
    ManagesAll(u.role)
  }

  /** The one rule behind every endpoint: a user may handle a template of a
      type unless it is an employee contract and the user is not
      privileged. */
  predicate MayHandle(u: User, templateType: string) {
    Privileged(u) || templateType != EmployeeContract
  }

  /** The sort key of `order_by('-date_created')`. */
  function NewestFirst(t: Template): int {
    -t.dateCreated
  }

  /** The listing of `email_template_list_create_view`: all templates newest
      first, without employee contracts for a user who is not privileged.
      The query filters of the filter set are not modelled. */
  function ListTemplates(requester: Option<User>, templates: seq<Template>): (r: Option<seq<Template>>)
    ensures r.Some? <==> requester.Some?
    ensures r.Some? ==> forall t :: t in r.value <==> t in templates && MayHandle(requester.value, t.templateType)
    ensures r.Some? ==> forall i, j :: 0 <= i < j < |r.value| ==> r.value[i].dateCreated >= r.value[j].dateCreated
    ensures r.Some? && Privileged(requester.value) ==> multiset(r.value) == multiset(templates)
  {
    if requester.None? then None
    else
      var sorted := Seqs.SortBy(templates, NewestFirst);
      assert forall t :: t in sorted <==> t in templates by {
        forall t ensures t in sorted <==> t in templates {
          assert t in sorted <==> t in multiset(sorted);
          assert t in templates <==> t in multiset(templates);
        }
      }
      if Privileged(requester.value) then Some(sorted)
      else
        var shown := Seqs.Filter(sorted, (t: Template) => t.templateType != EmployeeContract);
        Seqs.FilterSorted(sorted, (t: Template) => t.templateType != EmployeeContract, NewestFirst);
        Some(shown)
  }

  /** The creation branch: a request for an employee contract by a user
      who is not privileged is refused before the serializer runs; a
      request the serializer accepts (`valid`) is created. */
  function CreateTemplate(requester: Option<User>, requestedType: Option<string>, valid: bool): (s: Status)
    ensures requester.None? ==> s == Denied
    ensures requester.Some? && requestedType == Some(EmployeeContract) && !Privileged(requester.value) ==> s == Denied
    ensures s == Created <==> (requester.Some? && valid &&
                               (requestedType.Some? ==> MayHandle(requester.value, requestedType.value)))
    ensures s in {Created, Denied, BadRequest}
  {
    if requester.None? then Denied
    else if requestedType == Some(EmployeeContract) && !Privileged(requester.value) then Denied
    else if valid then Created
    else BadRequest
  }

  /** The GET branch of `email_template_detail_view`: a missing template
      is not found, an employee contract is refused to a user who is not
      privileged. */
  function ViewTemplate(requester: Option<User>, templates: map<nat, Template>, pk: nat): (s: Status)
    ensures requester.None? ==> s == Denied
    ensures requester.Some? && pk !in templates ==> s == NotFound
    ensures requester.Some? && pk in templates ==>
      (s == Ok <==> MayHandle(requester.value, templates[pk].templateType)) && s in {Ok, Denied}
  {
    if requester.None? then Denied
    else if pk !in templates then NotFound
    else if MayHandle(requester.value, templates[pk].templateType) then Ok
    else Denied
  }

  /** The PUT branch: the requested type defaults to the current one, and a
      user who is not privileged may neither edit an employee contract nor
      turn a template into one. */
  function UpdateTemplate(requester: Option<User>, templates: map<nat, Template>, pk: nat,
                          requestedType: Option<string>, valid: bool): (s: Status)
    ensures requester.None? ==> s == Denied
    ensures requester.Some? && pk !in templates ==> s == NotFound
    ensures requester.Some? && pk in templates ==>
      var current := templates[pk].templateType;
      var requested := requestedType.GetOr(current);
      (s == Denied <==> !(MayHandle(requester.value, current) && MayHandle(requester.value, requested))) &&
      (s == Ok <==> MayHandle(requester.value, current) && MayHandle(requester.value, requested) && valid)
  {
    if requester.None? then Denied
    else if pk !in templates then NotFound
    else
      var current := templates[pk].templateType;
      var requested := requestedType.GetOr(current);
      if (current == EmployeeContract || requested == EmployeeContract) && !Privileged(requester.value) then Denied
      else if valid then Ok
      else BadRequest
  }

  /** `render_email_template_view` and `export_email_template_view`: the same
      gate on the stored type; what they produce is not modelled. */
  function RenderOrExport(requester: Option<User>, templates: map<nat, Template>, pk: nat): (s: Status)
    ensures requester.None? ==> s == Denied
    ensures requester.Some? && pk !in templates ==> s == NotFound
    ensures requester.Some? && pk in templates ==>
      (s == Ok <==> MayHandle(requester.value, templates[pk].templateType)) && s in {Ok, Denied}
  {
    if requester.None? then Denied
    else if pk !in templates then NotFound
    else if templates[pk].templateType == EmployeeContract && !Privileged(requester.value) then Denied
    else Ok
  }

  /** A user who is not privileged never reaches an employee contract
      through any endpoint, while a privileged user is never refused by the
      gate. */
  lemma ContractsReserved(u: User, templates: seq<Template>, stored: map<nat, Template>, pk: nat, valid: bool)
    ensures !Privileged(u) ==>
      (forall t :: t in ListTemplates(Some(u), templates).value ==> t.templateType != EmployeeContract) &&
      CreateTemplate(Some(u), Some(EmployeeContract), valid) == Denied &&
      (pk in stored && stored[pk].templateType == EmployeeContract ==>
        ViewTemplate(Some(u), stored, pk) == Denied &&
        (forall req :: UpdateTemplate(Some(u), stored, pk, req, valid) == Denied) &&
        RenderOrExport(Some(u), stored, pk) == Denied) &&
      (pk in stored ==> UpdateTemplate(Some(u), stored, pk, Some(EmployeeContract), valid) == Denied)
    ensures Privileged(u) ==>
      (forall req :: CreateTemplate(Some(u), req, valid) != Denied) &&
      (pk in stored ==>
        ViewTemplate(Some(u), stored, pk) == Ok &&
        RenderOrExport(Some(u), stored, pk) == Ok &&
        (forall req :: UpdateTemplate(Some(u), stored, pk, req, valid) != Denied))
  {
  }
}
