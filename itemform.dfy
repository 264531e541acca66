/** The five text fields of the item-creation form (`FieldKey` and `initialForm`). */
module ItemForm {

  datatype Field = Name | Description | Notes | Inspector | InspectionDate

  datatype Form = Form(name: string, description: string, notes: string, inspector: string, inspectionDate: string)
  {
    function Get(f: Field): string {
      match f
      case Name => name
      case Description => description
      case Notes => notes
      case Inspector => inspector
      case InspectionDate => inspectionDate
    }

    /** `{ ...prev, [f]: v }`: field `f` becomes `v`, every other field keeps its value. */
    function Set(f: Field, v: string): (r: Form)
      ensures r.Get(f) == v
      ensures forall g :: g != f ==> r.Get(g) == Get(g)
    {
      match f
      case Name => this.(name := v)
      case Description => this.(description := v)
      case Notes => this.(notes := v)
      case Inspector => this.(inspector := v)
      case InspectionDate => this.(inspectionDate := v)
    }
  }

  /** Two forms that agree on every field are the same form. */
  lemma FormExtensionality(a: Form, b: Form)
    requires forall f :: a.Get(f) == b.Get(f)
    ensures a == b
  {
    assert a.Get(Name) == b.Get(Name) && a.Get(Description) == b.Get(Description);
    assert a.Get(Notes) == b.Get(Notes) && a.Get(Inspector) == b.Get(Inspector);
    assert a.Get(InspectionDate) == b.Get(InspectionDate);
  }

  const InitialForm: Form := Form("", "", "", "", "")
}
