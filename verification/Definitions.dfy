/** Device types and inclusion states, with the byte values they have on air and in storage. */
module Definitions {
  import opened Bytes

  datatype MeshDeviceType = UNKNOWN | STANDARD | HUB {
    function Code(): byte {
      match this case UNKNOWN => 1 case STANDARD => 2 case HUB => 3
    }
  }

  datatype DeviceInclusionState = NOT_INCLUDED | INCLUSION_PENDING | INCLUDED {
    function Code(): byte {
      match this case NOT_INCLUDED => 1 case INCLUSION_PENDING => 2 case INCLUDED => 3
    }
  }

  lemma CodesAre()
    ensures UNKNOWN.Code() == 1 && STANDARD.Code() == 2 && HUB.Code() == 3
    ensures NOT_INCLUDED.Code() == 1 && INCLUSION_PENDING.Code() == 2 && INCLUDED.Code() == 3
  {
  }
}
