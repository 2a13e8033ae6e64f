/** Policy elements in canonical form (internal/aclmodel/model.go, frontend/src/pages/acls/model.ts). */
module CanonicalJson {
  /** Canonical JSON: objects by key, numbers as written. Two elements have the same canonical text
      exactly when these values are equal. */
  datatype CVal =
    | CNull
    | CBool(b: bool)
    | CNum(text: string)
    | CStr(s: string)
    | CArr(items: seq<CVal>)
    | CObj(fields: map<string, CVal>)
}
