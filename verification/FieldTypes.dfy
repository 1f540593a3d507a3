/** The field types that a manifest may give, shared by discovery and by queries. */
module FieldTypes {
  datatype FieldType = StringField | NumberField | DateField | BooleanField

  function TypeName(t: FieldType): string {
    match t
    case StringField => "string"
    case NumberField => "number"
    case DateField => "date"
    case BooleanField => "boolean"
  }
}
