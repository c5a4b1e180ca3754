/** The transit systems of the game (`TransitType`, Assets/Scripts/Transit/Line.cs),
    in declaration order. */
module TransitTypes {

  datatype TransitType = Bus | Tram | Subway | IntercityRail | Ferry | LightRail
}
