/** data-product-catalog-service/src/registration/registration.validator.ts: the
    structural checks every registered contract has passed. */
module ContractValidator {
  import opened Options
  import opened VersionText

  datatype Classification = PUBLIC | INTERNAL | CONFIDENTIAL | RESTRICTED

  datatype MaskingPolicy = ALLOW | REDACT | MASK | HASH | DENY

  datatype Field = Field(
    name: string,
    grainKey: bool,
    classification: Option<Classification>,
    piiType: Option<string>,
    maskingPolicy: Option<MaskingPolicy>,
    customerVisible: bool)

  datatype DeliveryType = FILE | API | SFTP | DATA_SHARE | EVENT | STREAM

  datatype DeliveryMethod = DeliveryMethod(kind: DeliveryType, enabled: bool, formats: Option<seq<string>>)

  /** The parts of a parsed contract document that the checks read. */
  datatype Structure = Structure(
    version: string,
    fields: seq<Field>,
    grainKeys: seq<string>,
    methods: seq<DeliveryMethod>,
    availabilityTargetPercent: Option<real>,
    minimumCompletenessPercent: Option<real>,
    grainUniqueRequired: bool,
    retentionPolicyRef: Option<string>)

  // ------------------------------------------------------------ what is valid

  predicate Declared(doc: Structure, name: string) {
    exists i :: 0 <= i < |doc.fields| && doc.fields[i].name == name
  }

  predicate Governed(f: Field) {
    f.classification == Some(RESTRICTED) ==>
      && f.piiType.Some? && f.piiType.value != ""
      && f.maskingPolicy.Some?
      && !(f.maskingPolicy == Some(ALLOW) && f.customerVisible)
  }

  /** Field names are distinct, the grain keys are declared fields and hold every field
      marked as one, enabled file delivery names a format, percentages are percentages,
      and restricted fields are governed. */
  predicate ValidStructure(doc: Structure) {
    && ParseSemVer(doc.version).Some?
    && (forall i, j :: 0 <= i < j < |doc.fields| ==> doc.fields[i].name != doc.fields[j].name)
    && (forall k :: k in doc.grainKeys ==> Declared(doc, k))
    && (forall i :: 0 <= i < |doc.fields| ==> doc.fields[i].grainKey ==> doc.fields[i].name in doc.grainKeys)
    && (forall i :: 0 <= i < |doc.methods| ==>
          doc.methods[i].kind == FILE && doc.methods[i].enabled ==>
            doc.methods[i].formats.Some? && doc.methods[i].formats.value != [])
    && (doc.availabilityTargetPercent.Some? ==> 0.0 <= doc.availabilityTargetPercent.value <= 100.0)
    && (doc.minimumCompletenessPercent.Some? ==> 0.0 <= doc.minimumCompletenessPercent.value <= 100.0)
    && (doc.grainUniqueRequired ==> doc.grainKeys != [])
    && (forall i :: 0 <= i < |doc.fields| ==> Governed(doc.fields[i]))
    && ((exists i :: 0 <= i < |doc.fields| && doc.fields[i].classification == Some(RESTRICTED))
        ==> doc.retentionPolicyRef.Some? && doc.retentionPolicyRef.value != "")
  }

  // ------------------------------------------------------------ the checks

  predicate Percent(p: Option<real>) { p.Some? ==> 0.0 <= p.value <= 100.0 }

  predicate Missing(s: Option<string>) { s.None? || s.value == "" }

  method CollectFieldNames(doc: Structure) returns (fieldNames: set<string>, ok: bool)
    ensures ok <==> forall i, j :: 0 <= i < j < |doc.fields| ==> doc.fields[i].name != doc.fields[j].name
    ensures ok ==> forall n :: n in fieldNames <==> Declared(doc, n)
  {
    fieldNames := {};
    for i := 0 to |doc.fields|
      invariant forall n :: n in fieldNames <==> exists k :: 0 <= k < i && doc.fields[k].name == n
      invariant forall j, k :: 0 <= j < k < i ==> doc.fields[j].name != doc.fields[k].name
    {
      if doc.fields[i].name in fieldNames {
        return fieldNames, false;
      }
      fieldNames := fieldNames + {doc.fields[i].name};
    }
    ok := true;
  }

  method CheckGovernance(doc: Structure) returns (ok: bool)
    ensures ok <==> forall i :: 0 <= i < |doc.fields| ==> Governed(doc.fields[i])
  {
    for i := 0 to |doc.fields|
      invariant forall k :: 0 <= k < i ==> Governed(doc.fields[k])
    {
      var f := doc.fields[i];
      if f.classification != Some(RESTRICTED) {
        continue;
      }
      if Missing(f.piiType) {
        return false;
      }
      if f.maskingPolicy.None? {
        return false;
      }
      if f.maskingPolicy == Some(ALLOW) && f.customerVisible {
        return false;
      }
    }
    ok := true;
  }

  method CheckGrain(doc: Structure, fieldNames: set<string>) returns (ok: bool)
    requires forall n :: n in fieldNames <==> Declared(doc, n)
    ensures ok <==> (forall k :: k in doc.grainKeys ==> Declared(doc, k))
                    && forall i :: 0 <= i < |doc.fields| ==>
                         doc.fields[i].grainKey ==> doc.fields[i].name in doc.grainKeys
  {
    for i := 0 to |doc.grainKeys|
      invariant forall k :: 0 <= k < i ==> Declared(doc, doc.grainKeys[k])
    {
      if doc.grainKeys[i] !in fieldNames {
        return false;
      }
    }
    for i := 0 to |doc.fields|
      invariant forall k :: 0 <= k < i ==> doc.fields[k].grainKey ==> doc.fields[k].name in doc.grainKeys
    {
      if doc.fields[i].grainKey && doc.fields[i].name !in doc.grainKeys {
        return false;
      }
    }
    ok := true;
  }

  /** Accepts exactly the valid structures; every rejection is CONTRACT_INVALID. */
  method ValidateContractStructure(doc: Structure) returns (ok: bool)
    ensures ok <==> ValidStructure(doc)
  {
    if ParseSemVer(doc.version).None? {
      return false;
    }
    var fieldNames, distinct := CollectFieldNames(doc);
    if !distinct {
      return false;
    }
    var grain := CheckGrain(doc, fieldNames);
    if !grain {
      return false;
    }
    for i := 0 to |doc.methods|
      invariant forall k :: 0 <= k < i ==>
        doc.methods[k].kind == FILE && doc.methods[k].enabled ==>
          doc.methods[k].formats.Some? && doc.methods[k].formats.value != []
    {
      var m := doc.methods[i];
      if m.kind == FILE && m.enabled && (m.formats.None? || |m.formats.value| == 0) {
        return false;
      }
    }
    if !Percent(doc.availabilityTargetPercent) || !Percent(doc.minimumCompletenessPercent) {
      return false;
    }
    if doc.grainUniqueRequired && |doc.grainKeys| == 0 {
      return false;
    }
    var governed := CheckGovernance(doc);
    if !governed {
      return false;
    }
    var restricted := exists i :: 0 <= i < |doc.fields| && doc.fields[i].classification == Some(RESTRICTED);
    return !(restricted && Missing(doc.retentionPolicyRef));
  }
}
