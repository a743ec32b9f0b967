/**
  The marker icon assets and the table that picks one from a device's type
  and working state. class.ts (`Devices.getDeviceIcon`) and utils/marker.ts
  (`getDeviceMarkerIcon`) hold the same table and differ only in the asset
  they fall back to for a type outside horn/camera/radar, so the table is
  defined once here with the fallback as a parameter.
 */
module Icons {
  import opened Common

  /** One constructor per imported image asset. */
  datatype Icon =
    | HornUp | HornDown
    | CameraUp | CameraDown
    | RadarUp | RadarDown
    | UnknownUp   // assets/icons/unknown/up.png, class.ts's fallback
    | Unknown     // assets/icons/unknown.png, utils/marker.ts's fallback

  /** The device types the table has a row for. */
  predicate KnownType(deviceType: string)
  {
    deviceType == "horn" || deviceType == "camera" || deviceType == "radar"
  }

  /** The `switch` on the device type; `functional` picks the Up or Down asset. */
  function IconFor(deviceType: string, functional: bool, fallback: Icon): Icon
  {
    match deviceType
    case "horn" => if functional then HornUp else HornDown
    case "camera" => if functional then CameraUp else CameraDown
    case "radar" => if functional then RadarUp else RadarDown
    case _ => fallback
  }

  /**
    The reading of an asset: which device type and working state it depicts.
    The fallback assets depict no particular type.
   */
  function IconMeaning(icon: Icon): Option<(string, bool)>
  {
    match icon
    case HornUp => Some(("horn", true))
    case HornDown => Some(("horn", false))
    case CameraUp => Some(("camera", true))
    case CameraDown => Some(("camera", false))
    case RadarUp => Some(("radar", true))
    case RadarDown => Some(("radar", false))
    case UnknownUp => None
    case Unknown => None
  }

  predicate IsFallback(icon: Icon)
  {
    icon == UnknownUp || icon == Unknown
  }

  /**
    The table is total and faithful: for a known type the chosen asset depicts
    exactly that type and state, and every other type gets the fallback.
   */
  lemma IconForMeaning(deviceType: string, functional: bool, fallback: Icon)
    requires IsFallback(fallback)
    ensures KnownType(deviceType) ==> IconMeaning(IconFor(deviceType, functional, fallback)) == Some((deviceType, functional))
    ensures !KnownType(deviceType) ==> IconFor(deviceType, functional, fallback) == fallback
  {
  }

  /** Conversely, every non-fallback asset is what the table picks for the state it depicts. */
  lemma IconMeaningInverse(icon: Icon, fallback: Icon)
    requires IconMeaning(icon).Some?
    ensures KnownType(IconMeaning(icon).value.0)
    ensures IconFor(IconMeaning(icon).value.0, IconMeaning(icon).value.1, fallback) == icon
  {
  }
}
