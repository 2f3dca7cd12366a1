/** The fixed registry of experimental methods and their display names. */
module Registry {

  /** The methods queried, in the order they are fetched. */
  const Methods: seq<string> := ["EM", "X-ray", "NMR", "Neutron", "Multiple methods", "Other"]

  /** Short code to the name shown in the chart legend. */
  const DisplayMapping: map<string, string> := map[
    "EM" := "Electron Microscopy",
    "X-ray" := "X-ray Crystallography",
    "NMR" := "Nuclear Magnetic Resonance",
    "Neutron" := "Neutron Diffraction",
    "Multiple methods" := "Multiple Methods",
    "Other" := "Other Techniques"
  ]

  /** The mapping names exactly the registry's codes. */
  lemma MappingCoversRegistry()
    ensures DisplayMapping.Keys == set m | m in Methods
  {
  }

  /** The display name of a technique label; an unknown label is shown as it is. */
  function FullName(technique: string): (full: string)
    ensures technique in Methods ==> technique in DisplayMapping && full == DisplayMapping[technique]
    ensures technique in Methods <==> full != technique
  {
    MappingCoversRegistry();
    if technique in DisplayMapping then DisplayMapping[technique] else technique
  }

  /** The registry lists each method once. */
  lemma MethodsDistinct()
    ensures forall i, j :: 0 <= i < j < |Methods| ==> Methods[i] != Methods[j]
  {
  }

  /** Different registry codes get different display names, so each legend entry names one method. */
  lemma FullNamesDistinct()
    ensures forall i, j :: 0 <= i < j < |Methods| ==> FullName(Methods[i]) != FullName(Methods[j])
  {
  }

  /** A display name is not itself a code, so looking it up again changes nothing. */
  lemma FullNameIdempotent(technique: string)
    ensures FullName(FullName(technique)) == FullName(technique)
  {
  }
}
