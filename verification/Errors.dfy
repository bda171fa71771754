/** The return codes the modelled code uses. */
module Errors {
  const RM_E_NONE := 0
  const RM_E_INVALID_PARAM := -2
  const RM_E_PACKET_TOO_LONG := -3
  const RM_E_INVALID_LENGTH := -4
  const RM_E_PACKET_CORRUPTED := -7
  const RM_E_MAX_HOPS := -8
  const RM_E_INVALID_DEVICE_TYPE := -9
  const RM_E_AUTH_FAILED := -403
  const RM_E_CRYPTO_SETUP := -401
  const RM_E_STORAGE_NOT_INIT := -502
  const RM_E_STORAGE_KEY_NOT_FOUND := -503
  const RM_E_STORAGE_WRITE_FAILED := -505
  const RM_E_STORAGE_NOT_ENOUGH_SPACE := -506
  const RM_E_INVALID_STATE := -601
  const RM_E_DEVICE_NOT_INCLUDED := -603
}
