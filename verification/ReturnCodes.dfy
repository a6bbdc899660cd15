/** Return codes of the hook API that the model answers with. */
module ReturnCodes {
  const TOO_SMALL := -4
  const DOESNT_EXIST := -5
  const NO_FREE_SLOTS := -6
  const INVALID_ARGUMENT := -7
  const PREREQUISITE_NOT_MET := -9
  const INVALID_FIELD := -17
  const PARSE_ERROR := -18
  const NOT_AN_ARRAY := -22
  const NOT_AN_OBJECT := -23
}
