/**
  utils/marker.ts: `getDeviceMarkerIcon`, the stateless icon choice for a
  device record that carries `functional` at top level.
 */
module Marker {
  import opened Common
  import opened Icons

  /** The asset a device marker shows; `unknown.png` for a type outside the table. */
  function GetDeviceMarkerIcon(device: FeedDevice): (icon: Icon)
    ensures device.deviceType == "horn" ==> icon == (if device.functional then HornUp else HornDown)
    ensures device.deviceType == "camera" ==> icon == (if device.functional then CameraUp else CameraDown)
    ensures device.deviceType == "radar" ==> icon == (if device.functional then RadarUp else RadarDown)
    ensures !KnownType(device.deviceType) ==> icon == Unknown
    ensures KnownType(device.deviceType) ==> IconMeaning(icon) == Some((device.deviceType, device.functional))
  {
    IconFor(device.deviceType, device.functional, Unknown)
  }

  /** The choice reads only the type and the working state: id, name and position do not matter. */
  lemma MarkerIconDependsOnlyOnTypeAndState(a: FeedDevice, b: FeedDevice)
    requires a.deviceType == b.deviceType && a.functional == b.functional
    ensures GetDeviceMarkerIcon(a) == GetDeviceMarkerIcon(b)
  {
  }

  /** A fallback icon is shown exactly when the type is outside the table. */
  lemma MarkerIconFallbackIff(device: FeedDevice)
    ensures GetDeviceMarkerIcon(device) == Unknown <==> !KnownType(device.deviceType)
  {
  }
}
