/** `convert_type` in pruebas/vfp.py: the SQL column type for a DBF field
    type code. */
module VfpTypes {

  /** The seven column types the mapping can produce. */
  const SqlTypes := ["VARCHAR(255)", "DECIMAL(10,2)", "DATE", "BOOLEAN", "TIMESTAMP", "INT", "TEXT"]

  /** The six codes with a type of their own, in the order the source tests them. */
  const Codes := ["C", "N", "D", "L", "T", "I"]

  function ConvertType(code: string): (t: string)
    ensures t in SqlTypes
    ensures t == "TEXT" <==> code !in Codes
    ensures forall i :: 0 <= i < |Codes| ==> (code == Codes[i] <==> t == SqlTypes[i])
  {
    if code == "C" then "VARCHAR(255)"
    else if code == "N" then "DECIMAL(10,2)"
    else if code == "D" then "DATE"
    else if code == "L" then "BOOLEAN"
    else if code == "T" then "TIMESTAMP"
    else if code == "I" then "INT"
    else "TEXT"
  }

  /** The code a type other than TEXT comes from. */
  function CodeOf(t: string): (code: string)
    requires t in SqlTypes[..6]
  {
    if t == "VARCHAR(255)" then "C"
    else if t == "DECIMAL(10,2)" then "N"
    else if t == "DATE" then "D"
    else if t == "BOOLEAN" then "L"
    else if t == "TIMESTAMP" then "T"
    else "I"
  }

  /** Each of the six codes has a type no other code has: the mapping is
      one-to-one on them and `CodeOf` undoes it. */
  lemma Recover(code: string)
    requires code in Codes
    ensures ConvertType(code) in SqlTypes[..6]
    ensures CodeOf(ConvertType(code)) == code
  {
  }

  /** Example: every other code, lower-case letters and the empty code included, is
      TEXT. */
  lemma Fallback()
    ensures ConvertType("c") == "TEXT" && ConvertType("M") == "TEXT" && ConvertType("") == "TEXT"
    ensures ConvertType("CN") == "TEXT"
  {
  }
}
