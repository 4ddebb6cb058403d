/** Symbol records as the scanner and the diff engine see them. */
module Symbols {

  datatype SymbolType = UnknownType | Class | Function | EntryPoint | Import | Export | ReactComponent {
    function Code(): nat {
      match this
      case UnknownType => 0
      case Class => 1
      case Function => 2
      case EntryPoint => 3
      case Import => 4
      case Export => 5
      case ReactComponent => 6
    }
  }

  datatype Visibility = UnknownVisibility | Public | Private | Protected | Module {
    function Code(): nat {
      match this
      case UnknownVisibility => 0
      case Public => 1
      case Private => 2
      case Protected => 3
      case Module => 4
    }
  }

  datatype SymbolRecord = SymbolRecord(
    symbolId: nat,
    fileId: nat,
    name: string,
    signature: string,
    symbolType: SymbolType,
    visibility: Visibility,
    lineNumber: nat,
    calls: seq<string>,
    bases: seq<string>,
    typeRefs: seq<string>)

  const NO_SYMBOL := SymbolRecord(0, 0, "", "", UnknownType, UnknownVisibility, 0, [], [], [])

  /** The numbers of the types and of the visibilities, by which they are ordered. */
  const TYPES: seq<SymbolType> := [UnknownType, Class, Function, EntryPoint, Import, Export, ReactComponent]

  const VISIBILITIES: seq<Visibility> := [UnknownVisibility, Public, Private, Protected, Module]

  lemma CodesIndex(t: SymbolType, v: Visibility)
    ensures t.Code() < 7 && TYPES[t.Code()] == t
    ensures v.Code() < 5 && VISIBILITIES[v.Code()] == v
  {
  }
}
