/** The type resolver: a closed table from a field's type keyword to the Go type
    information the generator emits for it. */
module Types {
  import opened Wrappers

  /** Go package to import (empty for built-in types), Go type name, and the
      constructor tag (Go field `Constructor`) used by the generated code. */
  datatype TypeInfo = TypeInfo(package: string, name: string, ctor: string)

  const BoolType := TypeInfo("", "bool", "Bool")
  const StrType := TypeInfo("", "string", "String")
  const IntType := TypeInfo("", "int", "Int")
  const LongType := TypeInfo("", "int64", "Int64")
  const FloatType := TypeInfo("", "float64", "Float64")
  const DateType := TypeInfo("time", "time.Time", "Time")
  const DurType := TypeInfo("time", "time.Duration", "Dur")
  const ObjType := TypeInfo("", "map[string]interface{}", "Any")
  const IPType := TypeInfo("", "string", "String")
  const GeoType := TypeInfo("", "string", "String")

  /** The twelve type keywords the resolver accepts. */
  const KnownTypes: set<string> :=
    {"keyword", "text", "bool", "boolean", "integer", "long", "float",
     "date", "duration", "object", "ip", "geo_point"}

  /** The Go types that live in package "time". */
  const TimeTypes: set<string> := {"date", "duration"}

  /** getType: resolves a type keyword; any other keyword is fatal and names the
      field (`name`) it was found in. */
  function GetType(typ: string, name: string): (r: Result<TypeInfo, Failure>)
    ensures r.Ok? <==> typ in KnownTypes
    ensures r.Err? ==> r.error == UnknownType(typ, name)
    ensures r.Ok? ==> (r.value.package == "time" <==> typ in TimeTypes)
    ensures r.Ok? ==> r.value.name != "" && r.value.ctor != ""
  {
    match typ
    case "keyword" => Ok(StrType)
    case "text" => Ok(StrType)
    case "bool" => Ok(BoolType)
    case "boolean" => Ok(BoolType)
    case "integer" => Ok(IntType)
    case "long" => Ok(LongType)
    case "float" => Ok(FloatType)
    case "date" => Ok(DateType)
    case "duration" => Ok(DurType)
    case "object" => Ok(ObjType)
    case "ip" => Ok(IPType)
    case "geo_point" => Ok(GeoType)
    case _ => Err(UnknownType(typ, name))
  }
}
