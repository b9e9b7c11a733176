/** `DataProcessor`: the check that the four required uploads are present
    and non-empty, and the merge step. An upload is a table or `None`. */
module DataLoader {
  import opened Common
  import opened Tables

  type Uploads = map<string, Option<Table>>

  /** The uploads the report needs, in the order they are checked. */
  const RequiredFiles := ["портал", "автокодификация", "сервизория", "иерархия"]

  const AllValid := "Все файлы корректны"

  function MissingMessage(name: string): string
  {
    "Отсутствует файл: " + name
  }

  function EmptyMessage(name: string): string
  {
    "Файл " + name + " пустой"
  }

  /** The verdict and its message. */
  datatype Validation = Validation(ok: bool, message: string)

  /** An upload that passes: present, not `None` and not empty. */
  predicate Usable(files: Uploads, name: string)
  {
    name in files && files[name].Some? && !IsEmpty(files[name].value)
  }

  /** What the check says about one required upload, if it fails. */
  function Complaint(files: Uploads, name: string): (r: Option<string>)
    ensures r.None? <==> Usable(files, name)
    ensures name !in files ==> r == Some(MissingMessage(name))
    ensures name in files && !Usable(files, name) ==> r == Some(EmptyMessage(name))
  {
    if name !in files then Some(MissingMessage(name))
    else if files[name].None? || IsEmpty(files[name].value) then Some(EmptyMessage(name))
    else None
  }

  /** The loop over the required uploads from position `k` on. */
  function ValidateFrom(files: Uploads, k: nat): (r: Validation)
    requires k <= |RequiredFiles|
    ensures r.ok <==> forall j :: k <= j < |RequiredFiles| ==> Usable(files, RequiredFiles[j])
    ensures r.ok ==> r.message == AllValid
    ensures !r.ok ==> exists j :: k <= j < |RequiredFiles| && Complaint(files, RequiredFiles[j]) == Some(r.message)
                        && forall i :: k <= i < j ==> Usable(files, RequiredFiles[i])
    decreases |RequiredFiles| - k
  {
    if k == |RequiredFiles| then Validation(true, AllValid)
    else match Complaint(files, RequiredFiles[k])
      case Some(m) => Validation(false, m)
      case None => ValidateFrom(files, k + 1)
  }

  /** `validate_data`: true exactly when all four uploads are usable;
      otherwise the complaint about the first one, in the fixed order, that
      is not. */
  function ValidateData(files: Uploads): (r: Validation)
    ensures r.ok <==> forall name :: name in RequiredFiles ==> Usable(files, name)
    ensures r.ok ==> r.message == AllValid
    ensures !r.ok ==> exists j :: 0 <= j < |RequiredFiles| && Complaint(files, RequiredFiles[j]) == Some(r.message)
                        && forall i :: 0 <= i < j ==> Usable(files, RequiredFiles[i])
  {
    ValidateFrom(files, 0)
  }

  /** Two upload sets that agree on the four required names get the same
      verdict and message, whatever else they hold. */
  lemma OtherUploadsDoNotMatter(a: Uploads, b: Uploads)
    requires forall name :: name in RequiredFiles ==> (name in a <==> name in b)
    requires forall name :: name in RequiredFiles && name in a ==> a[name] == b[name]
    ensures ValidateData(a) == ValidateData(b)
  {
    assert forall k :: 0 <= k < 4 ==> Complaint(a, RequiredFiles[k]) == Complaint(b, RequiredFiles[k]);
    assert ValidateFrom(a, 3) == ValidateFrom(b, 3);
    assert ValidateFrom(a, 2) == ValidateFrom(b, 2);
    assert ValidateFrom(a, 1) == ValidateFrom(b, 1);
  }

  /** With the portal upload missing the message names it, whatever the
      other uploads are: it is checked first. */
  lemma PortalIsCheckedFirst(files: Uploads)
    requires "портал" !in files
    ensures ValidateData(files) == Validation(false, "Отсутствует файл: портал")
  {
  }

  /** A required upload that is present but `None` or empty is reported as
      empty, not as missing, once the uploads before it pass. */
  lemma EmptyIsNotMissing(files: Uploads)
    requires Usable(files, "портал") && Usable(files, "автокодификация")
    requires "сервизория" in files && !Usable(files, "сервизория")
    ensures ValidateData(files) == Validation(false, "Файл сервизория пустой")
  {
  }

  /** `merge_data`: the uploads, unchanged. */
  function MergeData(files: Uploads): (r: Uploads)
    ensures r.Keys == files.Keys
    ensures forall name :: name in files ==> r[name] == files[name]
  {
    files
  }

  /** Merging keeps every verdict: the merged uploads validate as the originals do. */
  lemma MergeKeepsValidation(files: Uploads)
    ensures ValidateData(MergeData(files)) == ValidateData(files)
  {
  }
}
