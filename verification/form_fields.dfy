/** The contact form's submit handler in `initFormHandling`: every control
    is assigned to at most one logical field by a first-match chain over its
    placeholder, type, tag and name; then every `[required]` control is
    checked for a non-blank value. */
module FormFields {
  import opened Wrappers
  import opened Text

  /** The three element kinds `querySelectorAll('input, select, textarea')`
      returns. */
  datatype Tag = InputTag | SelectTag | TextAreaTag

  /** A form control reduced to what the handler reads. `placeholder` is ""
      when the control has none (a select has no placeholder). */
  datatype Control = Control(
    tag: Tag,
    inputType: string,
    placeholder: string,
    name: string,
    value: string,
    required: bool)

  /** The logical fields, in the order the chain tests them. */
  datatype Field = NameField | EmailField | PhoneField | ServiceField | MessageField

  /** The values collected so far; each starts as "". */
  datatype Fields = Fields(name: string, email: string, phone: string, service: string, message: string)

  const NoFields := Fields("", "", "", "", "")

  /** The position of a field in the chain. */
  function Rank(f: Field): nat {
    match f
    case NameField => 0
    case EmailField => 1
    case PhoneField => 2
    case ServiceField => 3
    case MessageField => 4
  }

  /** Whether a control qualifies for a field on its own, ignoring the
      order of the chain: a keyword in the lower-cased placeholder, a
      telling input type or tag, or the exact `name` attribute. */
  predicate Matches(c: Control, f: Field) {
    var ph := ToLower(c.placeholder);
    match f
    case NameField => Includes(ph, "name") || c.name == "name"
    case EmailField => Includes(ph, "email") || c.inputType == "email" || c.name == "email"
    case PhoneField => Includes(ph, "phone") || c.inputType == "tel" || c.name == "phone"
    case ServiceField => c.tag == SelectTag || Includes(ph, "service") || c.name == "service"
    case MessageField => c.tag == TextAreaTag || Includes(ph, "message") || c.name == "message"
  }

  /** The fields in the order the chain tests them. */
  const Chain: seq<Field> := [NameField, EmailField, PhoneField, ServiceField, MessageField]

  /** The first field of `fs` that `c` matches. */
  function FirstMatch(c: Control, fs: seq<Field>): Option<Field> {
    if fs == [] then None
    else if Matches(c, fs[0]) then Some(fs[0])
    else FirstMatch(c, fs[1..])
  }

  /** `f` sits at position `k` of `fs`, `c` matches it, and `c` matches no
      earlier position. */
  ghost predicate FirstAt(c: Control, fs: seq<Field>, f: Field, k: int) {
    0 <= k < |fs| && fs[k] == f && Matches(c, f) && forall j :: 0 <= j < k ==> !Matches(c, fs[j])
  }

  /** `FirstMatch` picks the field at the first position `c` matches, and
      finds nothing exactly when `c` matches no position. */
  lemma {:induction false} FirstMatchSpec(c: Control, fs: seq<Field>, f: Field)
    ensures FirstMatch(c, fs) == Some(f) <==> exists k :: FirstAt(c, fs, f, k)
    ensures FirstMatch(c, fs) == None <==> forall k :: 0 <= k < |fs| ==> !Matches(c, fs[k])
  {
    if fs != [] && !Matches(c, fs[0]) {
      var tail := fs[1..];
      FirstMatchSpec(c, tail, f);
      if FirstMatch(c, fs) == Some(f) {
        var k :| FirstAt(c, tail, f, k);
        assert FirstAt(c, fs, f, k + 1) by {
          forall j | 0 < j < k + 1 ensures !Matches(c, fs[j]) {
            assert fs[j] == tail[j - 1];
          }
        }
      }
      if exists k :: FirstAt(c, fs, f, k) {
        var k :| FirstAt(c, fs, f, k);
        assert FirstAt(c, tail, f, k - 1) by {
          forall j | 0 <= j < k - 1 ensures !Matches(c, tail[j]) {
            assert tail[j] == fs[j + 1];
          }
        }
      }
      if forall k :: 0 <= k < |tail| ==> !Matches(c, tail[k]) {
        forall k | 0 <= k < |fs| ensures !Matches(c, fs[k]) {
          if k > 0 { assert fs[k] == tail[k - 1]; }
        }
      }
    } else if fs != [] {
      if fs[0] == f {
        assert FirstAt(c, fs, f, 0);
      }
    }
  }

  /** The field a control is assigned to: the first field of the chain it
      matches, or none when it matches no field. */
  function Classify(c: Control): Option<Field> {
    FirstMatch(c, Chain)
  }

  /** A control goes to a field exactly when it matches that field and no
      field earlier in the chain, and to none exactly when it matches none. */
  lemma ClassifyFirstMatch(c: Control, f: Field)
    ensures Classify(c) == Some(f) <==>
      Matches(c, f) && forall g :: Rank(g) < Rank(f) ==> !Matches(c, g)
    ensures Classify(c) == None <==> forall g :: !Matches(c, g)
  {
    FirstMatchSpec(c, Chain, f);
    assert forall g :: Chain[Rank(g)] == g;
    if Classify(c) == None {
      forall g ensures !Matches(c, g) {
        assert Chain[Rank(g)] == g;
      }
    }
    if Classify(c) == Some(f) {
      var k :| FirstAt(c, Chain, f, k);
      assert Rank(f) == k;
      forall g | Rank(g) < Rank(f) ensures !Matches(c, g) {
        assert Chain[Rank(g)] == g;
      }
    }
    if Matches(c, f) && forall g :: Rank(g) < Rank(f) ==> !Matches(c, g) {
      forall j | 0 <= j < Rank(f) ensures !Matches(c, Chain[j]) {
        assert Rank(Chain[j]) == j;
      }
      assert FirstAt(c, Chain, f, Rank(f));
    }
  }

  /** The value collected for a field. */
  function Get(fs: Fields, f: Field): string {
    match f
    case NameField => fs.name
    case EmailField => fs.email
    case PhoneField => fs.phone
    case ServiceField => fs.service
    case MessageField => fs.message
  }

  /** Overwrites one field. */
  function Put(fs: Fields, f: Field, v: string): (r: Fields)
    ensures Get(r, f) == v
    ensures forall g :: g != f ==> Get(r, g) == Get(fs, g)
  {
    match f
    case NameField => fs.(name := v)
    case EmailField => fs.(email := v)
    case PhoneField => fs.(phone := v)
    case ServiceField => fs.(service := v)
    case MessageField => fs.(message := v)
  }

  /** The loop body for one control: its trimmed value goes to the field it
      is classified into, and every other field keeps its value. */
  function Step(fs: Fields, c: Control): (r: Fields)
    ensures forall f :: Classify(c) == Some(f) ==> Get(r, f) == Trim(c.value)
    ensures forall f :: Classify(c) != Some(f) ==> Get(r, f) == Get(fs, f)
  {
    match Classify(c)
    case Some(f) => Put(fs, f, Trim(c.value))
    case None => fs
  }

  /** The `forEach` over the controls in document order. */
  function Collect(cs: seq<Control>): Fields {
    if cs == [] then NoFields else Step(Collect(cs[..|cs| - 1]), cs[|cs| - 1])
  }

  /** Control `i` is the last control classified into `f`. */
  ghost predicate IsLastOf(cs: seq<Control>, f: Field, i: int) {
    && 0 <= i < |cs|
    && Classify(cs[i]) == Some(f)
    && forall j :: i < j < |cs| ==> Classify(cs[j]) != Some(f)
  }

  /** A later control of the same class overwrites an earlier one: the
      collected value is the trimmed value of the last control of that class. */
  lemma {:induction false} CollectTakesLastMatch(cs: seq<Control>, f: Field, i: int)
    requires IsLastOf(cs, f, i)
    ensures Get(Collect(cs), f) == Trim(cs[i].value)
  {
    var init := cs[..|cs| - 1];
    if i < |cs| - 1 {
      assert IsLastOf(init, f, i);
      CollectTakesLastMatch(init, f, i);
    }
  }

  /** A field no control is classified into stays empty. */
  lemma {:induction false} CollectUnmatchedIsEmpty(cs: seq<Control>, f: Field)
    requires forall j :: 0 <= j < |cs| ==> Classify(cs[j]) != Some(f)
    ensures Get(Collect(cs), f) == ""
  {
    if cs != [] {
      CollectUnmatchedIsEmpty(cs[..|cs| - 1], f);
    }
  }

  /** How a required control is outlined after validation; controls that
      are not required are never touched. */
  datatype Border = Untouched | ErrorBorder | OkBorder

  /** Whether a control stops the submission: required and blank. */
  predicate Blank(c: Control) {
    c.required && Trim(c.value) == ""
  }

  /** The outline a control gets from the `[required]` pass. */
  function BorderOf(c: Control): Border {
    if !c.required then Untouched else if Blank(c) then ErrorBorder else OkBorder
  }

  /** The form is valid iff no required control is blank after trimming. */
  predicate FormValid(cs: seq<Control>) {
    forall i :: 0 <= i < |cs| ==> !Blank(cs[i])
  }

  /** The `[required]` pass: every required control is outlined red when
      blank and neutral otherwise, and the form is valid iff none was
      outlined red. */
  method ValidateRequired(cs: seq<Control>) returns (valid: bool, borders: seq<Border>)
    ensures valid <==> FormValid(cs)
    ensures |borders| == |cs|
    ensures forall i :: 0 <= i < |cs| ==> borders[i] == BorderOf(cs[i])
    ensures forall i :: 0 <= i < |cs| ==> (borders[i] == ErrorBorder <==> Blank(cs[i]))
  {
    valid := true;
    borders := [];
    var k := 0;
    while k < |cs|
      invariant 0 <= k <= |cs|
      invariant |borders| == k
      invariant valid <==> forall i :: 0 <= i < k ==> !Blank(cs[i])
      invariant forall i :: 0 <= i < k ==> borders[i] == BorderOf(cs[i])
    {
      var c := cs[k];
      if !c.required {
        borders := borders + [Untouched];
      } else if Trim(c.value) == "" {
        valid := false;
        borders := borders + [ErrorBorder];
      } else {
        borders := borders + [OkBorder];
      }
      k := k + 1;
    }
  }

  /** When the last control of a class is required, a valid form sends a
      non-blank value for that field. */
  lemma RequiredLastMatchIsFilled(cs: seq<Control>, f: Field, i: int)
    requires FormValid(cs) && IsLastOf(cs, f, i) && cs[i].required
    ensures Get(Collect(cs), f) != ""
  {
    assert !Blank(cs[i]);
    CollectTakesLastMatch(cs, f, i);
  }

  /** Validation does not guarantee a name: a required "Your Name" control
      followed by an optional "Company Name" control passes validation, but
      the second one also matches "name" and overwrites the first. */
  lemma ValidFormCanSendEmptyName(cs: seq<Control>)
    requires cs == CompanyNameForm()
    ensures FormValid(cs) && Collect(cs).name == ""
  {
    CompanyNameFormIsValid(cs);
    CompanyNameOverwritesName(cs);
  }

  /** A two-control form: a required name and an optional company name. */
  function CompanyNameForm(): seq<Control> {
    [ Control(InputTag, "text", "Your Name *", "", "Jane", true),
      Control(InputTag, "text", "Company Name", "", "", false) ]
  }

  lemma CompanyNameFormIsValid(cs: seq<Control>)
    requires cs == CompanyNameForm()
    ensures FormValid(cs)
  {
    TrimSpec("Jane");
    assert !IsTrimSpace("Jane"[0]);
    assert !Blank(cs[0]) && !Blank(cs[1]);
  }

  lemma CompanyNameOverwritesName(cs: seq<Control>)
    requires cs == CompanyNameForm()
    ensures Collect(cs).name == ""
  {
    CompanyNameIsNameField();
    assert IsLastOf(cs, NameField, 1);
    CollectTakesLastMatch(cs, NameField, 1);
    assert Trim("") == "";
  }

  lemma CompanyNameIsNameField()
    ensures Classify(Control(InputTag, "text", "Company Name", "", "", false)) == Some(NameField)
  {
    var ph := ToLower("Company Name");
    assert ph[8..12] == "name" by {
      assert ph[8] == LowerChar('N') == 'n';
    }
    assert WindowAt(ph, "name", 8);
  }
}
